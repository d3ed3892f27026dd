/** Whole runs of one source's discrepancy: measurement cycles and publication actions in any interleaving. */
module DiscrepancyRuns {
  import opened Outcomes
  import opened Discrepancy
  import opened DiscrepancyLaws

  /** The attribution a run keeps: the source, and whether it is a named party. */
  datatype Party = Party(sourceId: string, namedParty: bool)

  datatype Step = Measure(discrepancyId: string, version: string, cycle: Cycle) | Publish(action: Action)

  /** The persisted state, the append-only measurement log, and the cycles that were accepted so far. */
  datatype History = History(state: Option<State>, log: seq<MeasurementEvent>, accepted: seq<Cycle>)

  const START: History := History(None, [], [])

  /** One step; a call that throws and a cycle that is ignored leave everything as it was. */
  function Take(h: History, party: Party, step: Step): History {
    match step
    case Measure(discrepancyId, version, cycle) =>
      (match Advance(h.state, discrepancyId, party.sourceId, party.namedParty, version, cycle)
       case Err(_) => h
       case Ok(a) =>
         if a.ignored.Some? then h else History(a.state, h.log + a.events, h.accepted + [cycle]))
    case Publish(action) =>
      if h.state.None? then h
      else
        match Transition(h.state.value, action)
        case Err(_) => h
        case Ok(t) => h.(state := Some(t.state))
  }

  function Run(h: History, party: Party, steps: seq<Step>): History {
    if steps == [] then h
    else Take(Run(h, party, steps[..|steps| - 1]), party, steps[|steps| - 1])
  }

  // ---- Streaks -----------------------------------------------------------------------------------

  /** Length of the longest suffix whose bands all satisfy `p`. */
  function Streak(cycles: seq<Cycle>, p: Band -> bool): nat {
    if cycles == [] || !p(cycles[|cycles| - 1].band) then 0 else 1 + Streak(cycles[..|cycles| - 1], p)
  }

  lemma {:induction false} StreakIsLongest(cycles: seq<Cycle>, p: Band -> bool)
    ensures var n := Streak(cycles, p);
      && n <= |cycles|
      && (forall i | |cycles| - n <= i < |cycles| :: p(cycles[i].band))
      && (n < |cycles| ==> !p(cycles[|cycles| - n - 1].band))
  {
    if cycles != [] && p(cycles[|cycles| - 1].band) {
      StreakIsLongest(cycles[..|cycles| - 1], p);
    }
  }

  const OUT: Band -> bool := (b: Band) => b != WithinTolerance
  const ABOVE: Band -> bool := (b: Band) => b == AboveInfo

  ghost predicate StreaksAgree(h: History) {
    && (IsOpen(h.state) <==> Streak(h.accepted, OUT) > 0)
    && Count(h.state) == Streak(h.accepted, OUT)
    && AboveCount(h.state) == Streak(h.accepted, ABOVE)
  }

  lemma {:induction false} AboveWithinOut(cycles: seq<Cycle>)
    ensures Streak(cycles, ABOVE) <= Streak(cycles, OUT)
  {
    if cycles != [] { AboveWithinOut(cycles[..|cycles| - 1]); }
  }

  function Count(state: Option<State>): int { if IsOpen(state) then state.value.cycles else 0 }

  function AboveCount(state: Option<State>): int { if IsOpen(state) then state.value.aboveInfo else 0 }

  /** How one step moves the two counters: untouched, or counted on from the accepted band. */
  lemma {:induction false} TakeMovesCounters(h: History, party: Party, step: Step)
    ensures var next := Take(h, party, step);
      || (next.accepted == h.accepted && IsOpen(next.state) == IsOpen(h.state)
          && Count(next.state) == Count(h.state) && AboveCount(next.state) == AboveCount(h.state))
      || (&& step.Measure? && next.accepted == h.accepted + [step.cycle]
          && (IsOpen(next.state) <==> OUT(step.cycle.band))
          && Count(next.state) == (if OUT(step.cycle.band) then Count(h.state) + 1 else 0)
          && AboveCount(next.state) == (if ABOVE(step.cycle.band) then AboveCount(h.state) + 1 else 0))
  {}

  lemma {:induction false} TakeKeepsStreaks(h: History, party: Party, step: Step)
    requires StreaksAgree(h)
    ensures StreaksAgree(Take(h, party, step))
  {
    TakeMovesCounters(h, party, step);
    AboveWithinOut(h.accepted);
  }

  lemma {:induction false} TakeKeepsSchema(h: History, party: Party, step: Step)
    requires h.state.Some? ==> Valid(h.state.value)
    ensures var next := Take(h, party, step); next.state.Some? ==> Valid(next.state.value)
  {}

  lemma {:induction false} RunKeepsStreaks(party: Party, steps: seq<Step>)
    ensures var h := Run(START, party, steps);
      && StreaksAgree(h)
      && (h.state.Some? ==> Valid(h.state.value))
  {
    if steps != [] {
      var before := steps[..|steps| - 1];
      RunKeepsStreaks(party, before);
      TakeKeepsSchema(Run(START, party, before), party, steps[|steps| - 1]);
      TakeKeepsStreaks(Run(START, party, before), party, steps[|steps| - 1]);
    }
  }

  lemma {:induction false} LongStreakMeansLastThree(cycles: seq<Cycle>)
    ensures var n := |cycles|;
      Streak(cycles, ABOVE) >= 3 <==> n >= 3 && forall i | n - 3 <= i < n :: cycles[i].band == AboveInfo
  {
    StreakIsLongest(cycles, ABOVE);
    var n, k := |cycles|, Streak(cycles, ABOVE);
    if k < 3 <= n { assert !ABOVE(cycles[n - k - 1].band); }
  }

  /**
   * After any run, an open state counts exactly the longest out-of-tolerance and above-Info suffixes of the accepted
   * cycles, and severity is a function of the last three accepted bands. Publication steps do not disturb this.
   */
  lemma {:induction false} SeverityFromHistory(party: Party, steps: seq<Step>)
    ensures var h := Run(START, party, steps);
      var n := |h.accepted|;
      && (IsOpen(h.state) <==> n > 0 && h.accepted[n - 1].band != WithinTolerance)
      && (IsOpen(h.state) ==>
            && h.state.value.cycles == Streak(h.accepted, OUT)
            && h.state.value.aboveInfo == Streak(h.accepted, ABOVE)
            && (h.state.value.severity == Info <==> h.accepted[n - 1].band == InfoBand)
            && (h.state.value.severity == Critical <==>
                  n >= 3 && forall i | n - 3 <= i < n :: h.accepted[i].band == AboveInfo))
  {
    RunKeepsStreaks(party, steps);
    var h := Run(START, party, steps);
    LongStreakMeansLastThree(h.accepted);
    if IsOpen(h.state) { assert SeverityMatchesStreak(h.state.value.severity, Streak(h.accepted, ABOVE)); }
  }

  // ---- The event log -----------------------------------------------------------------------------

  predicate Deviating(kind: Kind) { kind == Opened || kind == Observed || kind == Escalated }

  /** The fields of a snapshot that only measurement changes. */
  function Measured(s: Snapshot): (Severity, Lifecycle, int, int) { (s.severity, s.lifecycle, s.cycles, s.aboveInfo) }

  /** What may be appended after `previous`, and how its snapshots continue those already logged. */
  predicate Continues(previous: Option<MeasurementEvent>, e: MeasurementEvent) {
    match e.kind
    case Opened =>
      && (previous.Some? ==> previous.value.kind == ResolvedEvent)
      && e.before.None? && e.after.lifecycle == Open && e.after.severity != Critical
    case ResolvedEvent =>
      && previous.Some? && previous.value.kind == Reconverged
      && e.before == previous.value.before && e.after == previous.value.after && e.cycleId == previous.value.cycleId
    case _ =>
      && previous.Some? && Deviating(previous.value.kind)
      && e.before.Some? && Measured(e.before.value) == Measured(previous.value.after)
      && (e.kind == Reconverged <==> e.after.lifecycle == Resolved)
      && (e.kind != Reconverged ==> !(e.before.value.severity == Info && e.after.severity == Critical))
      && (e.kind == Escalated ==> Rank(e.before.value.severity) < Rank(e.after.severity))
      && (e.kind == Observed ==> Rank(e.after.severity) <= Rank(e.before.value.severity))
  }

  function Before(log: seq<MeasurementEvent>, i: nat): Option<MeasurementEvent>
    requires i <= |log|
  {
    if i == 0 then None else Some(log[i - 1])
  }

  ghost predicate SoundLog(log: seq<MeasurementEvent>) {
    forall i {:trigger Before(log, i)} | 0 <= i < |log| :: Continues(Before(log, i), log[i])
  }

  ghost predicate LogAgrees(h: History) {
    && SoundLog(h.log)
    && (h.state.Some? ==> Valid(h.state.value))
    && EndsAt(Before(h.log, |h.log|), h.state)
  }

  /** The last logged event fits the state: mid-episode with the same measurement fields, or between episodes. */
  ghost predicate EndsAt(last: Option<MeasurementEvent>, state: Option<State>) {
    if IsOpen(state)
    then last.Some? && Deviating(last.value.kind) && Measured(last.value.after) == Measured(SnapshotOf(state.value))
    else last.Some? ==> last.value.kind == ResolvedEvent
  }

  lemma {:induction false} AdvanceExtendsLog(last: Option<MeasurementEvent>, h: History, party: Party, step: Step)
    requires step.Measure? && EndsAt(last, h.state) && (h.state.Some? ==> Valid(h.state.value))
    requires Take(h, party, step).log != h.log
    ensures var next := Take(h, party, step);
      && |h.log| < |next.log| <= |h.log| + 2 && next.log[..|h.log|] == h.log
      && Continues(last, next.log[|h.log|])
      && (|next.log| == |h.log| + 2 ==> Continues(Some(next.log[|h.log|]), next.log[|h.log| + 1]))
      && EndsAt(Some(next.log[|next.log| - 1]), next.state)
      && (next.state.Some? ==> Valid(next.state.value))
  {
    var a := Advance(h.state, step.discrepancyId, party.sourceId, party.namedParty, step.version, step.cycle).value;
    var next := Take(h, party, step);
    assert next.log == h.log + a.events;
    if step.cycle.band == WithinTolerance {
      assert a.events == [a.events[0], a.events[1]];
    } else {
      assert a.events == [a.events[0]];
    }
  }

  lemma {:induction false} JoinSound(log: seq<MeasurementEvent>, longer: seq<MeasurementEvent>)
    requires SoundLog(log) && |log| < |longer| <= |log| + 2 && longer[..|log|] == log
    requires Continues(Before(log, |log|), longer[|log|])
    requires |longer| == |log| + 2 ==> Continues(Some(longer[|log|]), longer[|log| + 1])
    ensures SoundLog(longer)
  {
    forall i | 0 <= i < |longer| ensures Continues(Before(longer, i), longer[i]) {
      assert i < |log| ==> longer[i] == log[i];
      assert i <= |log| ==> Before(longer, i) == Before(log, i);
    }
  }

  lemma {:induction false} UnloggedStep(h: History, party: Party, step: Step)
    requires LogAgrees(h) && Take(h, party, step).log == h.log
    ensures LogAgrees(Take(h, party, step))
  {}

  lemma {:induction false} LoggedStep(h: History, next: History)
    requires LogAgrees(h) && |h.log| < |next.log| <= |h.log| + 2 && next.log[..|h.log|] == h.log
    requires Continues(Before(h.log, |h.log|), next.log[|h.log|])
    requires |next.log| == |h.log| + 2 ==> Continues(Some(next.log[|h.log|]), next.log[|h.log| + 1])
    requires EndsAt(Some(next.log[|next.log| - 1]), next.state) && (next.state.Some? ==> Valid(next.state.value))
    ensures LogAgrees(next)
  {
    JoinSound(h.log, next.log);
  }

  lemma {:induction false} TakeKeepsLog(h: History, party: Party, step: Step)
    requires LogAgrees(h)
    ensures LogAgrees(Take(h, party, step))
  {
    if Take(h, party, step).log == h.log {
      UnloggedStep(h, party, step);
    } else {
      AdvanceExtendsLog(Before(h.log, |h.log|), h, party, step);
      LoggedStep(h, Take(h, party, step));
    }
  }

  lemma {:induction false} RunKeepsLog(party: Party, steps: seq<Step>)
    ensures LogAgrees(Run(START, party, steps))
  {
    if steps != [] {
      RunKeepsLog(party, steps[..|steps| - 1]);
      TakeKeepsLog(Run(START, party, steps[..|steps| - 1]), party, steps[|steps| - 1]);
    }
  }

  /** Prefixes of (opened (observed | escalated)* reconverged resolved)* that do not stop after `reconverged`. */
  predicate Episodes(kinds: seq<Kind>) {
    kinds == [] || (kinds[0] == Opened && Episode(kinds[1..]))
  }

  predicate Episode(kinds: seq<Kind>) {
    || kinds == []
    || ((kinds[0] == Observed || kinds[0] == Escalated) && Episode(kinds[1..]))
    || (|kinds| >= 2 && kinds[0] == Reconverged && kinds[1] == ResolvedEvent && Episodes(kinds[2..]))
  }

  function Kinds(log: seq<MeasurementEvent>): seq<Kind> { seq(|log|, i requires 0 <= i < |log| => log[i].kind) }

  /** The adjacency rule of `Continues`, on kinds alone. */
  predicate Adjacent(previous: Kind, next: Kind) {
    match next
    case Opened => previous == ResolvedEvent
    case ResolvedEvent => previous == Reconverged
    case _ => Deviating(previous)
  }

  lemma {:induction false} AdjacentKindsFormEpisodes(previous: Kind, kinds: seq<Kind>)
    requires kinds != [] ==> Adjacent(previous, kinds[0])
    requires forall i | 0 <= i < |kinds| - 1 :: Adjacent(kinds[i], kinds[i + 1])
    requires kinds == [] || kinds[|kinds| - 1] != Reconverged
    ensures previous == ResolvedEvent ==> Episodes(kinds)
    ensures Deviating(previous) ==> Episode(kinds)
    decreases |kinds|
  {
    if kinds != [] {
      if kinds[0] == Reconverged {
        assert Adjacent(kinds[0], kinds[1]);
        assert kinds[1] == ResolvedEvent;
        AdjacentKindsFormEpisodes(kinds[1], kinds[2..]);
      } else {
        AdjacentKindsFormEpisodes(kinds[0], kinds[1..]);
      }
    }
  }

  lemma {:induction false} SoundLogHasAdjacentKinds(log: seq<MeasurementEvent>, i: nat)
    requires SoundLog(log) && i < |log|
    ensures if i == 0 then log[i].kind == Opened else Adjacent(log[i - 1].kind, log[i].kind)
  {
    assert Continues(Before(log, i), log[i]);
  }

  lemma {:induction false} SoundLogFormsEpisodes(log: seq<MeasurementEvent>)
    requires SoundLog(log) && (log != [] ==> log[|log| - 1].kind != Reconverged)
    ensures Episodes(Kinds(log))
  {
    var kinds := Kinds(log);
    forall i | 0 <= i < |kinds| - 1 ensures Adjacent(kinds[i], kinds[i + 1]) {
      SoundLogHasAdjacentKinds(log, i + 1);
    }
    if log != [] { SoundLogHasAdjacentKinds(log, 0); }
    AdjacentKindsFormEpisodes(ResolvedEvent, kinds);
  }

  /** The event log of every run is a sequence of episodes whose snapshots chain, with publication steps anywhere. */
  lemma {:induction false} LogIsSound(party: Party, steps: seq<Step>)
    ensures SoundLog(Run(START, party, steps).log)
    ensures Episodes(Kinds(Run(START, party, steps).log))
  {
    RunKeepsLog(party, steps);
    SoundLogFormsEpisodes(Run(START, party, steps).log);
  }

  // ---- Identifiers over a run --------------------------------------------------------------------

  ghost predicate DistinctIds(cycles: seq<Cycle>) {
    forall i, j | 0 <= i < j < |cycles| :: cycles[i].id != cycles[j].id
  }

  ghost function Ids(cycles: seq<Cycle>): set<string> { set c | c in cycles :: c.id }

  /** No cycle has two events of the same type, and every event belongs to an accepted cycle. */
  ghost predicate OneEventPerKind(h: History) {
    && (forall i | 0 <= i < |h.log| :: h.log[i].cycleId in Ids(h.accepted))
    && (forall i, j | 0 <= i < j < |h.log| :: h.log[i].cycleId != h.log[j].cycleId || h.log[i].kind != h.log[j].kind)
  }

  lemma {:induction false} OneEventPerKindOverRuns(party: Party, steps: seq<Step>)
    requires DistinctIds(Run(START, party, steps).accepted)
    ensures OneEventPerKind(Run(START, party, steps))
  {
    if steps != [] {
      var step := steps[|steps| - 1];
      var before, after := Run(START, party, steps[..|steps| - 1]), Run(START, party, steps);
      assert after == Take(before, party, step);
      DistinctPrefix(before.accepted, after.accepted);
      OneEventPerKindOverRuns(party, steps[..|steps| - 1]);
      if after.accepted != before.accepted {
        FreshCycle(before, after, step.cycle);
      }
    }
  }

  lemma {:induction false} DistinctPrefix(cycles: seq<Cycle>, longer: seq<Cycle>)
    requires DistinctIds(longer) && cycles <= longer
    ensures DistinctIds(cycles)
    ensures |longer| == |cycles| + 1 ==> longer[|cycles|].id !in Ids(cycles)
  {
    assert forall i | 0 <= i < |cycles| :: cycles[i] == longer[i];
  }

  lemma {:induction false} FreshCycle(before: History, after: History, cycle: Cycle)
    requires OneEventPerKind(before) && Ids(after.accepted) == Ids(before.accepted) + {cycle.id}
    requires cycle.id !in Ids(before.accepted)
    requires before.log <= after.log && |after.log| <= |before.log| + 2
    requires forall i | |before.log| <= i < |after.log| :: after.log[i].cycleId == cycle.id
    requires |after.log| == |before.log| + 2 ==> after.log[|before.log|].kind != after.log[|before.log| + 1].kind
    ensures OneEventPerKind(after)
  {
    forall i | 0 <= i < |after.log|
      ensures after.log[i].cycleId in Ids(after.accepted)
      ensures i < |before.log| ==> after.log[i] == before.log[i]
    {}
  }

  predicate Keyed(e: MeasurementEvent) { e.id == EventId(e.discrepancyId, e.cycleId, e.kind) }

  lemma {:induction false} TakeLogsKeyedEvents(h: History, party: Party, step: Step)
    requires forall e | e in h.log :: Keyed(e)
    ensures forall e | e in Take(h, party, step).log :: Keyed(e)
  {}

  lemma {:induction false} LogIsKeyed(party: Party, steps: seq<Step>)
    ensures forall e | e in Run(START, party, steps).log :: Keyed(e)
  {
    if steps != [] {
      LogIsKeyed(party, steps[..|steps| - 1]);
      TakeLogsKeyedEvents(Run(START, party, steps[..|steps| - 1]), party, steps[|steps| - 1]);
    }
  }

  lemma {:induction false} OtherKeyOtherId(e: MeasurementEvent, f: MeasurementEvent)
    requires Keyed(e) && Keyed(f) && (e.cycleId != f.cycleId || e.kind != f.kind)
    ensures e.id != f.id
  {
    if e.id == f.id {
      EventIdInjective(e.discrepancyId, e.cycleId, e.kind, f.discrepancyId, f.cycleId, f.kind);
    }
  }

  /** When no cycle identifier is used for two accepted cycles, no two logged events share an identifier. */
  lemma {:induction false} EventIdsDistinct(party: Party, steps: seq<Step>)
    requires DistinctIds(Run(START, party, steps).accepted)
    ensures var log := Run(START, party, steps).log;
      forall i, j | 0 <= i < j < |log| :: log[i].id != log[j].id
  {
    var log := Run(START, party, steps).log;
    OneEventPerKindOverRuns(party, steps);
    LogIsKeyed(party, steps);
    forall i, j | 0 <= i < j < |log| ensures log[i].id != log[j].id {
      OtherKeyOtherId(log[i], log[j]);
    }
  }

  // ---- Replay ------------------------------------------------------------------------------------

  /** Neither the state nor the log differs. */
  predicate SameRecord(a: History, b: History) { a.state == b.state && a.log == b.log }

  /** Nothing is stored, or the measurement is not newer, repeats the last cycle, or fails a check. */
  predicate Settled(state: Option<State>, party: Party, step: Step)
    requires step.Measure?
  {
    || state.None?
    || !Accepted(state, step.discrepancyId, party.sourceId, party.namedParty, step.version, step.cycle)
    || Overflows(state, step.version, step.cycle)
  }

  /** On a stored state a measurement changes nothing exactly when it is settled. */
  lemma {:induction false} SettledExactly(h: History, party: Party, step: Step)
    requires step.Measure? && h.state.Some? && Valid(h.state.value)
    ensures SameRecord(Take(h, party, step), h) <==> Settled(h.state, party, step)
  {
    AdvanceRejectsExactly(h.state, step.discrepancyId, party.sourceId, party.namedParty, step.version, step.cycle);
  }

  lemma {:induction false} NothingTaken(h: History, party: Party, step: Step, other: History)
    requires Take(h, party, step).state.None? && other.state.None?
    ensures h.state.None? && SameRecord(Take(other, party, step), other)
  {}

  /** While nothing was stored, each measurement of the history left it so. */
  lemma {:induction false} NothingStored(party: Party, steps: seq<Step>, step: Step, h: History)
    requires Run(START, party, steps).state.None? && step in steps && h.state.None?
    ensures SameRecord(Take(h, party, step), h)
  {
    var n := |steps| - 1;
    NothingTaken(Run(START, party, steps[..n]), party, steps[n], h);
    if step != steps[n] { NothingStored(party, steps[..n], step, h); }
  }

  ghost predicate Replays(replay: seq<Step>, steps: seq<Step>) {
    forall step | step in replay :: step in steps && step.Measure?
  }

  ghost predicate AllSettled(state: Option<State>, party: Party, steps: seq<Step>) {
    forall step | step in steps && step.Measure? :: Settled(state, party, step)
  }

  lemma {:induction false} SettledReplay(party: Party, steps: seq<Step>, replay: seq<Step>)
    requires Replays(replay, steps) && AllSettled(Run(START, party, steps).state, party, steps)
    ensures SameRecord(Run(Run(START, party, steps), party, replay), Run(START, party, steps))
  {
    if replay != [] {
      var n, end := |replay| - 1, Run(START, party, steps);
      SettledReplay(party, steps, replay[..n]);
      var h := Run(end, party, replay[..n]);
      assert replay[n] in replay;
      if end.state.None? {
        NothingStored(party, steps, replay[n], h);
      } else {
        RunKeepsStreaks(party, steps);
        SettledExactly(h, party, replay[n]);
      }
    }
  }

  lemma {:induction false} OneStep(h: History, party: Party, step: Step)
    ensures Run(h, party, [step]) == Take(h, party, step)
  {
    assert [step][..0] == [] && Run(h, party, []) == h;
  }

  /**
   * Replaying measurements of a history, any of them in any order and with publication steps in between in the history,
   * never changes state or log exactly when each of them is settled in the state the history ended with.
   */
  lemma {:induction false} ReplayChangesNothingExactly(party: Party, steps: seq<Step>)
    ensures var end := Run(START, party, steps);
      (forall replay | Replays(replay, steps) :: SameRecord(Run(end, party, replay), end))
      <==> AllSettled(end.state, party, steps)
  {
    var end := Run(START, party, steps);
    if AllSettled(end.state, party, steps) {
      forall replay | Replays(replay, steps) ensures SameRecord(Run(end, party, replay), end) {
        SettledReplay(party, steps, replay);
      }
    } else {
      var step :| step in steps && step.Measure? && !Settled(end.state, party, step);
      RunKeepsStreaks(party, steps);
      SettledExactly(end, party, step);
      OneStep(end, party, step);
      assert Replays([step], steps);
    }
  }

  /** Measurements offered in order of completion, with publication steps anywhere. */
  ghost predicate TimeOrdered(steps: seq<Step>) {
    forall i, j | 0 <= i < j < |steps| && steps[i].Measure? && steps[j].Measure? :: steps[i].cycle.at <= steps[j].cycle.at
  }

  /** The fields that decide whether a measurement is settled. */
  predicate SameIdentity(s: State, t: State) {
    && s.lastFinalizedAt == t.lastFinalizedAt && s.lastFinalizedCycleId == t.lastFinalizedCycleId
    && s.discrepancyId == t.discrepancyId && s.sourceId == t.sourceId && s.namedParty == t.namedParty
    && s.version == t.version && s.lifecycle == t.lifecycle && s.cycles == t.cycles
  }

  /** A step marks the state with its completion time, or was settled, or changed publication only. */
  predicate Marks(before: Option<State>, after: Option<State>, party: Party, step: Step) {
    || (step.Measure? && after.Some? && after.value.lastFinalizedAt == step.cycle.at)
    || (after == before && (step.Measure? ==> Settled(before, party, step)))
    || (step.Publish? && before.Some? && after.Some? && SameIdentity(after.value, before.value))
  }

  lemma {:induction false} MeasureMarks(h: History, party: Party, step: Step)
    requires step.Measure?
    ensures var next := Take(h, party, step);
      (next.state.Some? && next.state.value.lastFinalizedAt == step.cycle.at) || SameRecord(next, h)
  {}

  lemma {:induction false} TakeMarks(h: History, party: Party, step: Step)
    requires h.state.Some? ==> Valid(h.state.value)
    ensures Marks(h.state, Take(h, party, step).state, party, step)
  {
    if step.Measure? {
      MeasureMarks(h, party, step);
      if h.state.Some? { SettledExactly(h, party, step); }
    }
  }

  lemma {:induction false} StaysSettled(before: Option<State>, after: Option<State>, party: Party, last: Step, step: Step)
    requires Marks(before, after, party, last) && step.Measure?
    requires last.Measure? ==> step.cycle.at <= last.cycle.at
    requires step == last || Settled(before, party, step)
    ensures Settled(after, party, step)
  {}

  lemma {:induction false} OrderedIsSettled(party: Party, steps: seq<Step>)
    requires TimeOrdered(steps)
    ensures AllSettled(Run(START, party, steps).state, party, steps)
  {
    if steps != [] {
      var n := |steps| - 1;
      var before := Run(START, party, steps[..n]);
      OrderedIsSettled(party, steps[..n]);
      RunKeepsStreaks(party, steps[..n]);
      TakeMarks(before, party, steps[n]);
      StepSettles(party, steps, before.state, Run(START, party, steps).state);
    }
  }

  lemma {:induction false} StepSettles(party: Party, steps: seq<Step>, before: Option<State>, after: Option<State>)
    requires TimeOrdered(steps) && steps != [] && AllSettled(before, party, steps[..|steps| - 1])
    requires Marks(before, after, party, steps[|steps| - 1])
    ensures AllSettled(after, party, steps)
  {
    var n := |steps| - 1;
    forall step | step in steps && step.Measure? ensures Settled(after, party, step) {
      var i :| 0 <= i < |steps| && steps[i] == step;
      assert i < n ==> step in steps[..n];
      StaysSettled(before, after, party, steps[n], step);
    }
  }

  /** So no replay of a history whose cycles completed in order changes anything. */
  lemma {:induction false} OrderedReplayChangesNothing(party: Party, steps: seq<Step>, replay: seq<Step>)
    requires TimeOrdered(steps) && Replays(replay, steps)
    ensures SameRecord(Run(Run(START, party, steps), party, replay), Run(START, party, steps))
  {
    OrderedIsSettled(party, steps);
    SettledReplay(party, steps, replay);
  }

  const CALM: Step := Measure("d1", "v1", Cycle("c2", 200, WithinTolerance))
  const STRAY: Step := Measure("d1", "v1", Cycle("c1", 100, AboveInfo))

  lemma {:induction false} TwoSteps(h: History, party: Party, first: Step, second: Step)
    ensures Run(h, party, [first, second]) == Take(Take(h, party, first), party, second)
  {
    assert [first, second][..1] == [first] && [first][..0] == [];
    assert Run(h, party, [first]) == Take(Run(h, party, []), party, first);
  }

  lemma {:induction false} CalmLeavesNothing(party: Party)
    ensures Take(START, party, CALM).state == None
  {}

  lemma {:induction false} StrayOpens(h: History, party: Party)
    requires Identifier(party.sourceId) && h.state == None
    ensures var next := Take(h, party, STRAY).state;
      && next.Some? && Valid(next.value) && next.value.lastFinalizedAt == 100 && next.value.lastFinalizedCycleId == "c1"
      && next.value.discrepancyId == "d1" && next.value.version == "v1"
      && next.value.sourceId == party.sourceId && next.value.namedParty == party.namedParty
  {
    assert Identifier("d1") && Identifier("v1") && Identifier("c1");
  }

  /** An unsettled history: a cycle inside tolerance leaves no time mark while nothing is open. */
  lemma {:induction false} UnorderedReplayChangesState(party: Party)
    requires Identifier(party.sourceId)
    ensures var end := Run(START, party, [CALM, STRAY]);
      !AllSettled(end.state, party, [CALM, STRAY]) && !SameRecord(Run(end, party, [CALM]), end)
  {
    assert Identifier("d1") && Identifier("v1") && Identifier("c2");
    var end := Run(START, party, [CALM, STRAY]);
    CalmLeavesNothing(party);
    StrayOpens(Take(START, party, CALM), party);
    TwoSteps(START, party, CALM, STRAY);
    assert CALM in [CALM, STRAY] && !Settled(end.state, party, CALM);
    SettledExactly(end, party, CALM);
    OneStep(end, party, CALM);
  }
}
