/** What the fields of a discrepancy record of its history: the times, the standing, and what each step says of itself. */
module DiscrepancyFields {
  import opened Outcomes
  import opened Discrepancy
  import opened DiscrepancyLaws
  import opened DiscrepancyRuns

  // ---- The times ---------------------------------------------------------------------------------

  /** The cycle opens an episode: it deviates, and the one before it, if any, did not. */
  predicate Opens(cycles: seq<Cycle>, i: nat)
    requires i < |cycles|
  {
    cycles[i].band != WithinTolerance && (i > 0 ==> cycles[i - 1].band == WithinTolerance)
  }

  /** The cycle deviates, or closes an episode. */
  predicate Observes(cycles: seq<Cycle>, i: nat)
    requires i < |cycles|
  {
    cycles[i].band != WithinTolerance || (i > 0 && cycles[i - 1].band != WithinTolerance)
  }

  ghost predicate LastOpening(cycles: seq<Cycle>, at: int) {
    exists i: nat :: i < |cycles| && Opens(cycles, i) && cycles[i].at == at && forall j: nat | i < j < |cycles| :: !Opens(cycles, j)
  }

  ghost predicate LastObservation(cycles: seq<Cycle>, at: int) {
    exists i: nat :: i < |cycles| && Observes(cycles, i) && cycles[i].at == at && forall j: nat | i < j < |cycles| :: !Observes(cycles, j)
  }

  ghost predicate TimesAgree(h: History) {
    && (IsOpen(h.state) <==> h.accepted != [] && h.accepted[|h.accepted| - 1].band != WithinTolerance)
    && (h.state.Some? ==>
          && h.accepted != []
          && h.state.value.lastFinalizedAt == h.accepted[|h.accepted| - 1].at
          && h.state.value.lastFinalizedCycleId == h.accepted[|h.accepted| - 1].id
          && LastOpening(h.accepted, h.state.value.firstObservedAt)
          && LastObservation(h.accepted, h.state.value.lastObservedAt))
  }

  lemma {:induction false} OpeningMoves(cycles: seq<Cycle>, c: Cycle, at: int)
    requires LastOpening(cycles, at) && !Opens(cycles + [c], |cycles|)
    ensures LastOpening(cycles + [c], at)
  {
    var i: nat :| i < |cycles| && Opens(cycles, i) && cycles[i].at == at && forall j: nat | i < j < |cycles| :: !Opens(cycles, j);
    var more := cycles + [c];
    assert Opens(more, i) && more[i].at == at;
    forall j: nat | i < j < |more| ensures !Opens(more, j) { assert j < |cycles| ==> !Opens(cycles, j); }
  }

  lemma {:induction false} OpeningHere(cycles: seq<Cycle>, c: Cycle)
    requires Opens(cycles + [c], |cycles|)
    ensures LastOpening(cycles + [c], c.at)
  {
    assert (cycles + [c])[|cycles|].at == c.at;
  }

  lemma {:induction false} ObservationMoves(cycles: seq<Cycle>, c: Cycle, at: int)
    requires LastObservation(cycles, at) && !Observes(cycles + [c], |cycles|)
    ensures LastObservation(cycles + [c], at)
  {
    var i: nat :| i < |cycles| && Observes(cycles, i) && cycles[i].at == at && forall j: nat | i < j < |cycles| :: !Observes(cycles, j);
    var more := cycles + [c];
    assert Observes(more, i) && more[i].at == at;
    forall j: nat | i < j < |more| ensures !Observes(more, j) { assert j < |cycles| ==> !Observes(cycles, j); }
  }

  lemma {:induction false} ObservationHere(cycles: seq<Cycle>, c: Cycle)
    requires Observes(cycles + [c], |cycles|)
    ensures LastObservation(cycles + [c], c.at)
  {
    assert (cycles + [c])[|cycles|].at == c.at;
  }

  /** How an accepted cycle sets the times of the state. */
  lemma {:induction false} MeasuredTimes(prior: Option<State>, discrepancyId: string, party: Party, version: string, cycle: Cycle,
                                         a: Advanced)
    requires Advance(prior, discrepancyId, party.sourceId, party.namedParty, version, cycle) == Ok(a) && a.ignored.None?
    ensures IsOpen(a.state) <==> cycle.band != WithinTolerance
    ensures a.state.None? ==> prior.None? && cycle.band == WithinTolerance
    ensures a.state.Some? ==>
              && a.state.value.lastFinalizedAt == cycle.at && a.state.value.lastFinalizedCycleId == cycle.id
              && (cycle.band != WithinTolerance || IsOpen(prior) ==> a.state.value.lastObservedAt == cycle.at)
              && (cycle.band == WithinTolerance && !IsOpen(prior) ==>
                    prior.Some? && a.state.value.lastObservedAt == prior.value.lastObservedAt)
              && (cycle.band != WithinTolerance && !IsOpen(prior) ==> a.state.value.firstObservedAt == cycle.at)
              && (cycle.band == WithinTolerance || IsOpen(prior) ==>
                    prior.Some? && a.state.value.firstObservedAt == prior.value.firstObservedAt)
  {}

  lemma {:induction false} AcceptedTimes(h: History, cycle: Cycle, next: History)
    requires TimesAgree(h) && next.accepted == h.accepted + [cycle]
    requires IsOpen(next.state) <==> cycle.band != WithinTolerance
    requires next.state.Some? ==>
               && next.state.value.lastFinalizedAt == cycle.at && next.state.value.lastFinalizedCycleId == cycle.id
               && (cycle.band != WithinTolerance || IsOpen(h.state) ==> next.state.value.lastObservedAt == cycle.at)
               && (cycle.band == WithinTolerance && !IsOpen(h.state) ==>
                     h.state.Some? && next.state.value.lastObservedAt == h.state.value.lastObservedAt)
               && (cycle.band != WithinTolerance && !IsOpen(h.state) ==> next.state.value.firstObservedAt == cycle.at)
               && (cycle.band == WithinTolerance || IsOpen(h.state) ==>
                     h.state.Some? && next.state.value.firstObservedAt == h.state.value.firstObservedAt)
    ensures TimesAgree(next)
  {
    if next.state.Some? {
      var s := next.state.value;
      if Opens(next.accepted, |h.accepted|) { OpeningHere(h.accepted, cycle); } else { OpeningMoves(h.accepted, cycle, s.firstObservedAt); }
      if Observes(next.accepted, |h.accepted|) { ObservationHere(h.accepted, cycle); } else { ObservationMoves(h.accepted, cycle, s.lastObservedAt); }
    }
  }

  lemma {:induction false} TakeKeepsTimes(h: History, party: Party, step: Step)
    requires TimesAgree(h)
    ensures TimesAgree(Take(h, party, step))
  {
    if step.Measure? {
      var r := Advance(h.state, step.discrepancyId, party.sourceId, party.namedParty, step.version, step.cycle);
      if r.Ok? && r.value.ignored.None? {
        MeasuredTimes(h.state, step.discrepancyId, party, step.version, step.cycle, r.value);
        AcceptedTimes(h, step.cycle, Take(h, party, step));
      }
    }
  }

  /**
   * After any run the state was last finalized by the last accepted cycle, last observed by the last one that deviated or
   * closed an episode, and first observed by the one that opened the latest episode.
   */
  lemma {:induction false} TimesFromHistory(party: Party, steps: seq<Step>)
    ensures TimesAgree(Run(START, party, steps))
  {
    if steps != [] {
      TimesFromHistory(party, steps[..|steps| - 1]);
      TakeKeepsTimes(Run(START, party, steps[..|steps| - 1]), party, steps[|steps| - 1]);
    }
  }

  // ---- The events --------------------------------------------------------------------------------

  /** What a cycle reports: by where the discrepancy stood, and whether the cycle deviates and raises the severity. */
  function KindsOf(prior: Option<State>, next: Option<State>, band: Band): seq<Kind> {
    if band == WithinTolerance then (if IsOpen(prior) then [Reconverged, ResolvedEvent] else [])
    else if !IsOpen(prior) then [Opened]
    else if next.Some? && Rank(prior.value.severity) < Rank(next.value.severity) then [Escalated]
    else [Observed]
  }

  predicate Shows(shown: Snapshot, s: State) {
    && shown.severity == s.severity && shown.lifecycle == s.lifecycle && shown.publication == s.publication
    && shown.reply == s.reply && shown.cycles == s.cycles && shown.aboveInfo == s.aboveInfo
  }

  predicate TellsOf(e: MeasurementEvent, kind: Kind, s: State, prior: Option<State>, cycle: Cycle) {
    && e.kind == kind && e.id == EventId(s.discrepancyId, cycle.id, kind)
    && e.discrepancyId == s.discrepancyId && e.sourceId == s.sourceId && e.version == s.version
    && e.cycleId == cycle.id && e.at == cycle.at && e.band == cycle.band
    && Shows(e.after, s) && (if IsOpen(prior) then e.before.Some? && Shows(e.before.value, prior.value) else e.before.None?)
  }

  /** The events of an accepted cycle are of the kinds its course calls for, and each tells the states around it. */
  lemma {:induction false} EventsTell(prior: Option<State>, discrepancyId: string, sourceId: string, namedParty: bool,
                                      version: string, cycle: Cycle)
    requires Advance(prior, discrepancyId, sourceId, namedParty, version, cycle).Ok?
    ensures var a := Advance(prior, discrepancyId, sourceId, namedParty, version, cycle).value;
      a.ignored.None? ==>
        && |a.events| == |KindsOf(prior, a.state, cycle.band)|
        && (a.events != [] ==> a.state.Some?)
        && forall i | 0 <= i < |a.events| :: TellsOf(a.events[i], KindsOf(prior, a.state, cycle.band)[i], a.state.value, prior, cycle)
  {}

  /** A cycle is ignored exactly when it repeats the last one or completed no later, after the identity checks. */
  lemma {:induction false} IgnoredExactly(prior: Option<State>, discrepancyId: string, sourceId: string, namedParty: bool,
                                          version: string, cycle: Cycle)
    requires Advance(prior, discrepancyId, sourceId, namedParty, version, cycle).Ok?
    ensures var a := Advance(prior, discrepancyId, sourceId, namedParty, version, cycle).value;
      && (a.ignored.Some? <==>
            prior.Some? && (cycle.id == prior.value.lastFinalizedCycleId || cycle.at <= prior.value.lastFinalizedAt))
      && (a.ignored.Some? ==>
            && a.state == prior && a.events == []
            && (a.ignored == Some(DuplicateCycle) <==> cycle.id == prior.value.lastFinalizedCycleId))
  {}

  // ---- The standing ------------------------------------------------------------------------------

  /** When an action may be taken on a valid state. */
  predicate Allowed(s: State, kind: ActionKind, at: int) {
    match kind
    case BeginReply(n) => Identifier(n) && s.namedParty && s.lifecycle == Open && s.severity != Info && s.publication == Internal
    case RecordResponse => s.publication == PendingReply && s.reply == AwaitingReply
    case ReviewResponse(r) => Identifier(r) && s.publication == PendingReply && s.reply == ResponseReceived
    case ExpireReplyWindow =>
      s.publication == PendingReply && s.reply == AwaitingReply && s.publicationUpdatedAt + REPLY_WINDOW_MS <= at
    case Approve(r) =>
      && Identifier(r) && s.severity != Info
      && if s.namedParty then s.publication == PendingReply && (s.reply == ResponseReviewed || s.reply == WindowExpired)
         else s.publication == Internal
    case Withhold(r) => Identifier(r) && s.severity != Info && s.publication != Withheld
  }

  /** Where it leads. */
  function Leads(s: State, kind: ActionKind): Standing {
    match kind
    case BeginReply(_) => (PendingReply, AwaitingReply)
    case RecordResponse => (PendingReply, ResponseReceived)
    case ReviewResponse(_) => (PendingReply, ResponseReviewed)
    case ExpireReplyWindow => (PendingReply, WindowExpired)
    case Approve(_) => (ApprovedPublic, s.reply)
    case Withhold(_) => (Withheld, s.reply)
  }

  /**
   * On a valid state an action succeeds exactly when it is allowed, named by an identifier and not before the last one; it
   * changes the standing and its time alone, and its event tells both standings.
   */
  lemma {:induction false} ActionsExactly(s: State, action: Action)
    requires Valid(s)
    ensures var r := Transition(s, action);
      && (r.Ok? <==> Identifier(action.eventId) && s.publicationUpdatedAt <= action.at && Allowed(s, action.kind, action.at))
      && (r.Ok? ==>
            && r.value.state == s.(publication := Leads(s, action.kind).0, reply := Leads(s, action.kind).1,
                                   publicationUpdatedAt := action.at)
            && r.value.event == PublicationEvent(action.eventId, s.discrepancyId, action.at, action.kind,
                                                 (s.publication, s.reply), Leads(s, action.kind)))
  {}

  /** A step takes back what was published: it opens an episode, or finds a deviation of grade Info. */
  predicate Withdraws(h: History, party: Party, step: Step) {
    && step.Measure? && Take(h, party, step).accepted != h.accepted
    && step.cycle.band != WithinTolerance && (step.cycle.band == InfoBand || !IsOpen(h.state))
  }

  /** The last action that succeeded since publication was last taken back. */
  function LastAction(party: Party, steps: seq<Step>): Option<Action> {
    if steps == [] then None
    else
      var prefix, step := steps[..|steps| - 1], steps[|steps| - 1];
      var h := Run(START, party, prefix);
      if Withdraws(h, party, step) then None
      else if step.Publish? && h.state.Some? && Transition(h.state.value, step.action).Ok? then Some(step.action)
      else LastAction(party, prefix)
  }

  /** The standing is that of the last action. */
  predicate StandsBy(s: State, last: Option<Action>) {
    match last
    case None => s.publication == Internal && s.reply == NotRequired
    case Some(action) => (s.publication, s.reply) == Leads(s, action.kind) && s.publicationUpdatedAt == action.at
  }

  lemma {:induction false} StepStands(h: History, party: Party, step: Step, last: Option<Action>)
    requires h.state.Some? ==> Valid(h.state.value) && StandsBy(h.state.value, last)
    requires h.state.None? ==> last.None?
    ensures var next := Take(h, party, step);
      var now := if Withdraws(h, party, step) then None
                 else if step.Publish? && h.state.Some? && Transition(h.state.value, step.action).Ok? then Some(step.action)
                 else last;
      && (next.state.Some? ==> StandsBy(next.state.value, now)) && (next.state.None? ==> now.None?)
  {
    if step.Publish? && h.state.Some? {
      ActionsExactly(h.state.value, step.action);
    } else if step.Measure? {
      MeasureStands(h, party, step);
    }
  }

  lemma {:induction false} MeasureStands(h: History, party: Party, step: Step)
    requires step.Measure?
    ensures var next := Take(h, party, step);
      if Withdraws(h, party, step)
      then next.state.Some? && next.state.value.publication == Internal && next.state.value.reply == NotRequired
           && next.state.value.publicationUpdatedAt == step.cycle.at
      else (h.state.None? <==> next.state.None?)
           && (h.state.Some? ==>
                 && next.state.value.publication == h.state.value.publication && next.state.value.reply == h.state.value.reply
                 && next.state.value.publicationUpdatedAt == h.state.value.publicationUpdatedAt)
  {
    var r := Advance(h.state, step.discrepancyId, party.sourceId, party.namedParty, step.version, step.cycle);
    assert h.accepted + [step.cycle] != h.accepted by { assert |h.accepted + [step.cycle]| == |h.accepted| + 1; }
  }

  /** After any run the standing is that of the last action since an episode opened or the deviation fell to Info. */
  lemma {:induction false} StandingFromHistory(party: Party, steps: seq<Step>)
    ensures var h := Run(START, party, steps);
      && (h.state.Some? ==> StandsBy(h.state.value, LastAction(party, steps)))
      && (h.state.None? ==> LastAction(party, steps).None?)
  {
    if steps != [] {
      var prefix := steps[..|steps| - 1];
      StandingFromHistory(party, prefix);
      RunKeepsStreaks(party, prefix);
      StepStands(Run(START, party, prefix), party, steps[|steps| - 1], LastAction(party, prefix));
    }
  }
}
