/**
 * The discrepancy state machine: completed measurement cycles move severity and streaks, human and
 * system actions move publication and reply review. Times are milliseconds.
 */
module Discrepancy {
  import opened Outcomes
  import opened Decimals

  const SAFE_INTEGER_MAX: int := 9007199254740991
  const REPLY_WINDOW_MS: int := 72 * 3600000

  datatype Severity = Info | Warning | Critical
  datatype Band = WithinTolerance | InfoBand | AboveInfo
  datatype Lifecycle = Open | Resolved
  datatype Publication = Internal | PendingReply | ApprovedPublic | Withheld
  datatype ReplyReview = NotRequired | AwaitingReply | ResponseReceived | ResponseReviewed | WindowExpired

  datatype State = State(
    discrepancyId: string,
    sourceId: string,
    version: string,
    namedParty: bool,
    severity: Severity,
    lifecycle: Lifecycle,
    publication: Publication,
    reply: ReplyReview,
    cycles: int,
    aboveInfo: int,
    firstObservedAt: int,
    lastObservedAt: int,
    lastFinalizedAt: int,
    lastFinalizedCycleId: string,
    publicationUpdatedAt: int
  )

  datatype Cycle = Cycle(id: string, at: int, band: Band)

  datatype Snapshot = Snapshot(
    severity: Severity,
    lifecycle: Lifecycle,
    publication: Publication,
    reply: ReplyReview,
    cycles: int,
    aboveInfo: int
  )

  datatype Kind = Opened | Observed | Escalated | Reconverged | ResolvedEvent

  datatype MeasurementEvent = MeasurementEvent(
    id: string,
    kind: Kind,
    discrepancyId: string,
    sourceId: string,
    version: string,
    cycleId: string,
    at: int,
    band: Band,
    before: Option<Snapshot>,
    after: Snapshot
  )

  datatype Ignored = DuplicateCycle | OutOfOrderCycle

  datatype Advanced = Advanced(state: Option<State>, events: seq<MeasurementEvent>, ignored: Option<Ignored>)

  datatype Fault =
    | InvalidPriorState
    | InvalidIdentifier
    | IdentityChanged
    | VersionChanged
    | DiscrepancyIdChanged
    | ActionPrecedesState
    | GuardFailed
    | StreakTooLong
    | SchemaRejected

  // ---- Identifiers -------------------------------------------------------------------------------

  predicate IdentifierStart(c: char) { 'a' <= c <= 'z' || 'A' <= c <= 'Z' || '0' <= c <= '9' }

  predicate IdentifierChar(c: char) { IdentifierStart(c) || c in "._:-" }

  predicate Identifier(s: string) {
    1 <= |s| <= 128 && IdentifierStart(s[0]) && forall c | c in s :: IdentifierChar(c)
  }

  function KindText(kind: Kind): string {
    match kind
    case Opened => "opened"
    case Observed => "observed"
    case Escalated => "escalated"
    case Reconverged => "reconverged"
    case ResolvedEvent => "resolved"
  }

  function Framed(s: string): string { Print(|s|) + ":" + s }

  /** Length-prefixed so that identifiers holding the separator cannot be confused. */
  function EventId(discrepancyId: string, cycleId: string, kind: Kind): string {
    "d" + (Framed(discrepancyId) + (":c" + (Framed(cycleId) + (":" + KindText(kind)))))
  }

  // ---- The persisted schema ----------------------------------------------------------------------

  predicate SeverityMatchesStreak(severity: Severity, aboveInfo: int) {
    match severity
    case Info => aboveInfo == 0
    case Warning => aboveInfo == 1 || aboveInfo == 2
    case Critical => aboveInfo >= 3
  }

  /** What the schema of a persisted state demands: field shapes, then its cross-field rules. */
  predicate Valid(s: State) {
    && Identifier(s.discrepancyId) && Identifier(s.sourceId) && Identifier(s.lastFinalizedCycleId)
    && 1 <= |s.version| <= 100
    && 0 <= s.cycles <= SAFE_INTEGER_MAX && 0 <= s.aboveInfo <= SAFE_INTEGER_MAX
    && s.firstObservedAt <= s.lastObservedAt
    && s.firstObservedAt <= s.lastFinalizedAt
    && s.lastObservedAt <= s.lastFinalizedAt
    && s.firstObservedAt <= s.publicationUpdatedAt
    && s.aboveInfo <= s.cycles
    && (s.lifecycle == Open ==> s.cycles != 0)
    && (s.lifecycle == Resolved ==> s.cycles == 0 && s.aboveInfo == 0)
    && (s.lifecycle == Open ==> SeverityMatchesStreak(s.severity, s.aboveInfo))
    && (s.severity == Info ==> s.publication == Internal)
    && (s.publication == Internal ==> s.reply == NotRequired)
    && (s.publication == PendingReply ==> s.reply != NotRequired && s.namedParty)
    && (s.namedParty && s.publication == ApprovedPublic ==> s.reply == ResponseReviewed || s.reply == WindowExpired)
    && (!s.namedParty && s.publication == ApprovedPublic ==> s.reply == NotRequired)
  }

  function SnapshotOf(s: State): Snapshot {
    Snapshot(s.severity, s.lifecycle, s.publication, s.reply, s.cycles, s.aboveInfo)
  }

  // ---- Measurement -------------------------------------------------------------------------------

  function Classify(band: Band, aboveInfo: int): Option<Severity> {
    match band
    case WithinTolerance => None
    case InfoBand => Some(Info)
    case AboveInfo => Some(if aboveInfo >= 3 then Critical else Warning)
  }

  function Rank(severity: Severity): int {
    match severity case Info => 0 case Warning => 1 case Critical => 2
  }

  function EventOf(s: State, kind: Kind, cycle: Cycle, before: Option<Snapshot>): MeasurementEvent {
    MeasurementEvent(EventId(s.discrepancyId, cycle.id, kind), kind, s.discrepancyId, s.sourceId, s.version,
                     cycle.id, cycle.at, cycle.band, before, SnapshotOf(s))
  }

  /** An open discrepancy is observed inside tolerance again. */
  function Resolve(prior: State, cycle: Cycle): Result<Advanced, Fault> {
    var next := prior.(lifecycle := Resolved, cycles := 0, aboveInfo := 0, lastObservedAt := cycle.at,
                       lastFinalizedAt := cycle.at, lastFinalizedCycleId := cycle.id);
    if !Valid(next) then Err(SchemaRejected)
    else
      var before := Some(SnapshotOf(prior));
      Ok(Advanced(Some(next),
                  [EventOf(next, Reconverged, cycle, before), EventOf(next, ResolvedEvent, cycle, before)],
                  None))
  }

  /** The state an out-of-tolerance cycle leads to, continuing an open episode or starting a new one. */
  function Deviate(open: Option<State>, discrepancyId: string, sourceId: string, namedParty: bool, version: string,
                   cycle: Cycle, severity: Severity, aboveInfo: int): State
  {
    match open
    case Some(s) =>
      var toInfo := severity == Info;
      State(s.discrepancyId, sourceId, version, namedParty, severity, Open,
            if toInfo then Internal else s.publication,
            if toInfo then NotRequired else s.reply,
            s.cycles + 1, aboveInfo, s.firstObservedAt, cycle.at, cycle.at, cycle.id,
            if toInfo then cycle.at else s.publicationUpdatedAt)
    case None =>
      State(discrepancyId, sourceId, version, namedParty, severity, Open, Internal, NotRequired,
            1, aboveInfo, cycle.at, cycle.at, cycle.at, cycle.id, cycle.at)
  }

  /** Advances only for a strictly newer completed cycle; the returned events are append-only facts. */
  function Advance(prior: Option<State>, discrepancyId: string, sourceId: string, namedParty: bool, version: string,
                   cycle: Cycle): Result<Advanced, Fault>
  {
    if prior.Some? && !Valid(prior.value) then Err(InvalidPriorState)
    else if !Identifier(discrepancyId) || !Identifier(sourceId) || !Identifier(version) || !Identifier(cycle.id) then
      Err(InvalidIdentifier)
    else if prior.Some? && (prior.value.sourceId != sourceId || prior.value.namedParty != namedParty) then
      Err(IdentityChanged)
    else if prior.Some? && prior.value.lifecycle == Open && prior.value.version != version then Err(VersionChanged)
    else if prior.Some? && prior.value.lifecycle == Open && prior.value.discrepancyId != discrepancyId then
      Err(DiscrepancyIdChanged)
    else if prior.Some? && cycle.id == prior.value.lastFinalizedCycleId then
      Ok(Advanced(prior, [], Some(DuplicateCycle)))
    else if prior.Some? && cycle.at <= prior.value.lastFinalizedAt then
      Ok(Advanced(prior, [], Some(OutOfOrderCycle)))
    else if cycle.band == WithinTolerance then
      if prior.None? then Ok(Advanced(None, [], None))
      else if prior.value.lifecycle == Open then Resolve(prior.value, cycle)
      else
        var next := prior.value.(lastFinalizedAt := cycle.at, lastFinalizedCycleId := cycle.id);
        if Valid(next) then Ok(Advanced(Some(next), [], None)) else Err(SchemaRejected)
    else
      var open := if prior.Some? && prior.value.lifecycle == Open then prior else None;
      var aboveInfo :=
        if cycle.band == AboveInfo then (if open.Some? then open.value.aboveInfo + 1 else 1) else 0;
      if aboveInfo > SAFE_INTEGER_MAX then Err(StreakTooLong)
      else
        var severity := Classify(cycle.band, aboveInfo).value;
        var next := Deviate(open, discrepancyId, sourceId, namedParty, version, cycle, severity, aboveInfo);
        if !Valid(next) then Err(SchemaRejected)
        else
          var before := if open.Some? then Some(SnapshotOf(open.value)) else None;
          var kind :=
            if open.None? then Opened
            else if Rank(severity) > Rank(open.value.severity) then Escalated
            else Observed;
          Ok(Advanced(Some(next), [EventOf(next, kind, cycle, before)], None))
  }

  // ---- Publication -------------------------------------------------------------------------------

  datatype ActionKind =
    | BeginReply(notificationId: string)
    | RecordResponse
    | ReviewResponse(reviewerId: string)
    | ExpireReplyWindow
    | Approve(reviewerId: string)
    | Withhold(reviewerId: string)

  datatype Action = Action(eventId: string, at: int, kind: ActionKind)

  /** The pair of fields a publication action may change. */
  type Standing = (Publication, ReplyReview)

  datatype PublicationEvent = PublicationEvent(
    id: string, discrepancyId: string, at: int, kind: ActionKind, before: Standing, after: Standing)

  datatype Transitioned = Transitioned(state: State, event: PublicationEvent)

  /** Where the switch over the action leads, or none when one of its guards throws. */
  function Target(s: State, action: Action): Option<Standing> {
    match action.kind
    case BeginReply(notificationId) =>
      if !Identifier(notificationId) then None
      else if !s.namedParty || s.lifecycle != Open || s.severity == Info then None
      else if s.publication != Internal || s.reply != NotRequired then None
      else Some((PendingReply, AwaitingReply))
    case RecordResponse =>
      if s.publication != PendingReply || s.reply != AwaitingReply then None
      else Some((s.publication, ResponseReceived))
    case ReviewResponse(reviewerId) =>
      if !Identifier(reviewerId) then None
      else if s.publication != PendingReply || s.reply != ResponseReceived then None
      else Some((s.publication, ResponseReviewed))
    case ExpireReplyWindow =>
      if s.publication != PendingReply || s.reply != AwaitingReply then None
      else if action.at - s.publicationUpdatedAt < REPLY_WINDOW_MS then None
      else Some((s.publication, WindowExpired))
    case Approve(reviewerId) =>
      if !Identifier(reviewerId) then None
      else if s.severity == Info then None
      else if s.namedParty && s.reply != ResponseReviewed && s.reply != WindowExpired then None
      else if s.publication != Internal && s.publication != PendingReply then None
      else Some((ApprovedPublic, s.reply))
    case Withhold(reviewerId) =>
      if !Identifier(reviewerId) then None
      else if s.severity == Info then None
      else if s.publication == Withheld then None
      else Some((Withheld, s.reply))
  }

  /** Applies one publication action, independently of measurement. */
  function Transition(s: State, action: Action): Result<Transitioned, Fault> {
    if !Valid(s) then Err(InvalidPriorState)
    else if !Identifier(action.eventId) then Err(InvalidIdentifier)
    else if action.at < s.publicationUpdatedAt then Err(ActionPrecedesState)
    else
      match Target(s, action)
      case None => Err(GuardFailed)
      case Some(standing) =>
        var next := s.(publication := standing.0, reply := standing.1, publicationUpdatedAt := action.at);
        if !Valid(next) then Err(SchemaRejected)
        else Ok(Transitioned(next, PublicationEvent(action.eventId, s.discrepancyId, action.at, action.kind,
                                                    (s.publication, s.reply), standing)))
  }
}
