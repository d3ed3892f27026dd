/**
 * The anchor case protocol: cases, notices, replies, reply deadlines, reviews and retractions of named-party
 * discrepancies, together with the measurements that go on meanwhile. Each function is one database transaction;
 * an error result is a transaction that threw and was rolled back.
 *
 * A durable identifier is a SHA-256 digest over its parts. It is modelled by those parts themselves, so that two
 * identifiers are equal exactly when their parts are; every digest satisfies the identifier rule.
 */
module ReplyCase {
  import opened Outcomes
  import opened Discrepancy

  datatype CaseStatus = Draft | CaseAwaitingReply | UnderReview | CaseResolved
  datatype NoticeStatus = Pending | Failed | Sent

  /** A case opens with one notice per contact; further notices carry an identifier of their caller's choice. */
  datatype NoticeId = InitialNotice(discrepancyId: string, contactId: string) | OtherNotice(text: string)

  /** The idempotency key, of which a unique index allows one notice each. */
  datatype NoticeKey = InitialKey(discrepancyId: string, contactId: string) | OtherKey(text: string)

  /** A notice belongs to the case of `discrepancyId`. */
  datatype Notice = Notice(
    discrepancyId: string,
    key: NoticeKey,
    status: NoticeStatus,
    attempts: nat,
    nextAttemptAt: Option<int>,
    sentAt: Option<int>,
    leaseOwner: Option<string>,
    leaseToken: nat,
    leaseExpiresAt: Option<int>
  )

  datatype Case = Case(status: CaseStatus, openedAt: int, replyDueAt: Option<int>)

  /**
   * Primary key of a row of the discrepancy event log: a digest, or plain text, which a measurement composes and the caller
   * of an amendment chooses.
   */
  datatype Key =
    | TextKey(text: string)
    | BeginReplyKey(discrepancyId: string, notice: NoticeId)
    | ResponseKey(discrepancyId: string, version: nat, submittedAt: int)
    | ReplyExpiredKey(discrepancyId: string)
    | ReviewResponseKey(discrepancyId: string, at: int)
    | ApproveKey(discrepancyId: string, at: int)
    | WithholdKey(discrepancyId: string, at: int)
    | AmendmentKey(discrepancyId: string, retracted: bool, at: int)

  datatype Body =
    | MeasuredBody(event: MeasurementEvent)
    | PublishedBody(kind: ActionKind)
    | AmendedBody(retracted: bool, target: Key)

  datatype Entry = Entry(key: Key, discrepancyId: string, at: int, body: Body)

  /** The tables. A case is found by its discrepancy, which a unique index allows one case only. */
  datatype Db = Db(
    states: map<string, State>,
    cases: map<string, Case>,
    notices: map<NoticeId, Notice>,
    attempts: set<(NoticeId, nat)>,
    replies: map<string, seq<int>>,
    log: seq<Entry>
  )

  const EMPTY: Db := Db(map[], map[], map[], {}, map[], [])

  /** Stands for any digest where the identifier rule is checked. */
  const DIGEST: string := "digest"

  datatype Failure =
    | NotEligible
    | NotAuthorized
    | Rejected
    | LeaseLost
    | WindowClosed
    | KeyConflict
    | ConstraintViolated
    | PublicationDisabled
    | ActionFault(fault: Fault)

  type Outcome = Result<Db, Failure>

  // ---- The event log -----------------------------------------------------------------------------

  predicate HasKey(log: seq<Entry>, key: Key) { exists i :: 0 <= i < |log| && log[i].key == key }

  /**
   * A unique index allows one event of a type to target an event. An amendment names its target; the closing event of an
   * episode always targets the first opening of its discrepancy, so that (`Resolutions.TargetTakenExactly`) the index
   * refuses it exactly when the discrepancy was closed before.
   */
  predicate TargetTaken(log: seq<Entry>, entry: Entry) {
    match entry.body
    case AmendedBody(_, _) => exists i :: 0 <= i < |log| && log[i].body == entry.body
    case MeasuredBody(event) =>
      event.kind == ResolvedEvent
      && exists i :: 0 <= i < |log| && log[i].discrepancyId == entry.discrepancyId && log[i].body.MeasuredBody?
                     && log[i].body.event.kind == ResolvedEvent
    case PublishedBody(_) => false
  }

  /** Inserting a row whose primary key is taken throws. Events of publication actions target nothing. */
  function Insert(db: Db, entry: Entry): Outcome {
    if HasKey(db.log, entry.key) then Err(KeyConflict) else Ok(db.(log := db.log + [entry]))
  }

  /** So does inserting a row whose target is taken. */
  function Append(db: Db, entry: Entry): Outcome {
    if TargetTaken(db.log, entry) then Err(KeyConflict) else Insert(db, entry)
  }

  /** Performs a publication action on the stored state of `d` and logs it under `key`. */
  function Publish(db: Db, d: string, key: Key, kind: ActionKind, at: int): Outcome
    requires d in db.states
  {
    match Transition(db.states[d], Action(DIGEST, at, kind))
    case Err(fault) => Err(ActionFault(fault))
    case Ok(t) => Insert(db.(states := db.states[d := t.state]), Entry(key, d, at, PublishedBody(kind)))
  }

  // ---- Cases and notices -------------------------------------------------------------------------

  datatype Contact = Contact(id: string, verifiedAt: int)

  predicate UniqueContacts(contacts: seq<Contact>) {
    forall i, j | 0 <= i < j < |contacts| :: contacts[i].id != contacts[j].id
  }

  predicate EligibleTrigger(log: seq<Entry>, d: string, trigger: Key) {
    exists i :: 0 <= i < |log| && log[i].key == trigger && log[i].discrepancyId == d && log[i].body.MeasuredBody?
      && log[i].body.event.kind in {Opened, Observed, Escalated}
  }

  predicate EligibleState(s: State) {
    && s.namedParty && s.lifecycle == Open && s.severity != Info
    && s.publication == Internal && s.reply == NotRequired
  }

  /** A measurement event that other rows may name: its identifier satisfies the identifier rule. */
  predicate Nameable(key: Key) { key.TextKey? && Identifier(key.text) }

  function FreshNotice(d: string, key: NoticeKey, nextAttemptAt: Option<int>): Notice {
    Notice(d, key, Pending, 0, nextAttemptAt, None, None, 0, None)
  }

  function InitialNotices(d: string, contacts: seq<Contact>): map<NoticeId, Notice> {
    map c | c in contacts :: InitialNotice(d, c.id) := FreshNotice(d, InitialKey(d, c.id), None)
  }

  predicate KeyUsed(notices: map<NoticeId, Notice>, key: NoticeKey) { exists n :: n in notices && notices[n].key == key }

  /** Some initial notice would take an identifier or key that is in use. */
  predicate NoticesTaken(notices: map<NoticeId, Notice>, d: string, contacts: seq<Contact>) {
    exists c :: c in contacts && (InitialNotice(d, c.id) in notices || KeyUsed(notices, InitialKey(d, c.id)))
  }

  /**
   * Opens a draft case with one pending notice per contact; the reply deadline stays unset. `anchorVerified` says that the
   * source belongs to a verified anchor with a well-formed identifier.
   */
  function OpenCase(db: Db, d: string, trigger: Key, openedAt: int, anchorVerified: bool, contacts: seq<Contact>): Outcome {
    if d !in db.states || !anchorVerified then Err(NotEligible)
    else if !EligibleTrigger(db.log, d, trigger) then Err(NotEligible)
    else if d in db.cases then Ok(db)
    else if !Valid(db.states[d]) || !EligibleState(db.states[d]) then Err(NotEligible)
    else if !Nameable(trigger) then Err(NotEligible)
    else if contacts == [] || !UniqueContacts(contacts) then Err(NotEligible)
    else if exists c :: c in contacts && (!Identifier(c.id) || c.verifiedAt > openedAt) then Err(NotEligible)
    else if NoticesTaken(db.notices, d, contacts) then Err(KeyConflict)
    else
      Ok(db.(cases := db.cases[d := Case(Draft, openedAt, None)], notices := db.notices + InitialNotices(d, contacts)))
  }

  /**
   * Inserts a further notice of a case unless its idempotency key is in use. `wellFormed` are the checks on its columns;
   * the references to the case and to a known contact are checked when the row is inserted.
   */
  function Enqueue(db: Db, id: NoticeId, d: string, key: NoticeKey, wellFormed: bool, contactKnown: bool,
                   nextAttemptAt: Option<int>): Outcome
  {
    if !wellFormed then Err(ConstraintViolated)
    else if KeyUsed(db.notices, key) then Ok(db)
    else if id in db.notices then Err(KeyConflict)
    else if d !in db.cases || !contactKnown then Err(ConstraintViolated)
    else Ok(db.(notices := db.notices[id := FreshNotice(d, key, nextAttemptAt)]))
  }

  predicate NoticeDue(n: Notice, now: int) {
    && (n.status == Pending || (n.status == Failed && n.nextAttemptAt.Some? && n.nextAttemptAt.value <= now))
    && (n.leaseExpiresAt.None? || n.leaseExpiresAt.value <= now)
  }

  /** `rows` is an answer the locking query may give: at most `limit` different due notices. */
  predicate DueNotices(db: Db, now: int, limit: nat, rows: seq<NoticeId>) {
    && |rows| <= limit
    && (forall i, j | 0 <= i < j < |rows| :: rows[i] != rows[j])
    && (forall n | n in rows :: n in db.notices && NoticeDue(db.notices[n], now))
  }

  function ClaimOne(n: Notice, worker: string, expiresAt: int): Notice {
    n.(leaseOwner := Some(worker), leaseToken := n.leaseToken + 1, leaseExpiresAt := Some(expiresAt))
  }

  /** Leases the selected notices to one worker. */
  function ClaimNotices(db: Db, worker: string, now: int, durationMs: int, limit: nat, rows: seq<NoticeId>): Outcome {
    if worker == "" || |worker| > 128 || durationMs <= 0 || limit == 0 || limit > 100 then Err(Rejected)
    else if !DueNotices(db, now, limit, rows) then Err(Rejected)
    else
      Ok(db.(notices := map n | n in db.notices ::
                          if n in rows then ClaimOne(db.notices[n], worker, now + durationMs) else db.notices[n]))
  }

  datatype Delivery = Delivered | Undelivered(nextAttemptAt: Option<int>)

  predicate PlausibleDelivery(delivery: Delivery, startedAt: int, completedAt: int) {
    && startedAt <= completedAt
    && (delivery.Undelivered? && delivery.nextAttemptAt.Some? ==> completedAt <= delivery.nextAttemptAt.value)
  }

  function FailedNotice(n: Notice, nextAttemptAt: Option<int>): Notice {
    n.(status := Failed, attempts := n.attempts + 1, nextAttemptAt := nextAttemptAt, leaseOwner := None, leaseExpiresAt := None)
  }

  function SentNotice(n: Notice, at: int): Notice {
    n.(status := Sent, attempts := n.attempts + 1, nextAttemptAt := None, sentAt := Some(at),
       leaseOwner := None, leaseExpiresAt := None)
  }

  /**
   * Records one delivery attempt. The first successful notice of an internal discrepancy starts the reply window:
   * the discrepancy becomes pending, and the case gets its deadline.
   */
  function Deliver(db: Db, id: NoticeId, lease: Option<(string, nat)>, delivery: Delivery, startedAt: int, completedAt: int): Outcome {
    if !PlausibleDelivery(delivery, startedAt, completedAt) || id !in db.notices then Err(Rejected)
    else if db.notices[id].discrepancyId !in db.cases || db.notices[id].discrepancyId !in db.states then Err(Rejected)
    else
      var n := db.notices[id];
      var d := n.discrepancyId;
      if n.status == Sent then Ok(db)
      else if lease.Some? && (n.leaseOwner != Some(lease.value.0) || n.leaseToken != lease.value.1) then Err(LeaseLost)
      else if (id, n.attempts + 1) in db.attempts then Ok(db)
      else
        var tried := db.(attempts := db.attempts + {(id, n.attempts + 1)});
        match delivery
        case Undelivered(next) => Ok(tried.(notices := tried.notices[id := FailedNotice(n, next)]))
        case Delivered =>
          var sent := tried.(notices := tried.notices[id := SentNotice(n, completedAt)]);
          if !Valid(db.states[d]) then Err(ActionFault(InvalidPriorState))
          else if db.states[d].publication != Internal then Ok(sent)
          else BeginWindow(sent, d, id, completedAt)
  }

  /** What the identifier rule sees of a notice's identifier. */
  function NoticeText(id: NoticeId): string { match id case InitialNotice(_, _) => DIGEST case OtherNotice(text) => text }

  function BeginWindow(db: Db, d: string, id: NoticeId, at: int): Outcome
    requires d in db.states && d in db.cases
  {
    match Publish(db, d, BeginReplyKey(d, id), BeginReply(NoticeText(id)), at)
    case Err(failure) => Err(failure)
    case Ok(next) =>
      if at + REPLY_WINDOW_MS < db.cases[d].openedAt then Err(ConstraintViolated)
      else Ok(next.(cases := next.cases[d := db.cases[d].(status := CaseAwaitingReply,
                                                          replyDueAt := Some(at + REPLY_WINDOW_MS))]))
  }

  /** Puts a finally failed notice back in the queue. */
  function Requeue(db: Db, id: NoticeId, authorized: bool, at: int): Outcome {
    if !authorized then Err(NotAuthorized)
    else if id !in db.notices || db.notices[id].discrepancyId !in db.cases then Err(Rejected)
    else
      var n := db.notices[id];
      if n.status != Failed || n.nextAttemptAt.Some? || n.leaseOwner.Some? then Err(Rejected)
      else Ok(db.(notices := db.notices[id := n.(nextAttemptAt := Some(at))]))
  }

  // ---- Replies, expiry, review -------------------------------------------------------------------

  predicate Reviewable(db: Db, d: string) {
    && d in db.cases && d in db.states
    && (db.cases[d].status == CaseAwaitingReply || db.cases[d].status == UnderReview)
  }

  /** A claimant's reply, accepted while the deadline lies ahead; the first one answers the notice. */
  function SubmitReply(db: Db, d: string, authorized: bool, at: int): Outcome {
    if !authorized || !Reviewable(db, d) then Err(NotAuthorized)
    else if db.cases[d].replyDueAt.None? || db.cases[d].replyDueAt.value <= at then Err(WindowClosed)
    else
      var prior := if d in db.replies then db.replies[d] else [];
      var replied := db.(replies := db.replies[d := prior + [at]],
                         cases := db.cases[d := db.cases[d].(status := UnderReview)]);
      if db.states[d].reply == AwaitingReply then Publish(replied, d, ResponseKey(d, |prior| + 1, at), RecordResponse, at)
      else Ok(replied)
  }

  predicate WindowDue(db: Db, d: string, now: int) {
    && d in db.cases && d in db.states
    && db.cases[d].status == CaseAwaitingReply
    && db.cases[d].replyDueAt.Some? && db.cases[d].replyDueAt.value <= now
    && db.states[d].publication == PendingReply && db.states[d].reply == AwaitingReply
  }

  /** `rows` is an answer the sweep's query may give. */
  predicate DueWindows(db: Db, now: int, limit: nat, rows: seq<string>) {
    && |rows| <= limit
    && (forall i, j | 0 <= i < j < |rows| :: rows[i] != rows[j])
    && (forall d | d in rows :: WindowDue(db, d, now))
  }

  function ExpireOne(db: Db, d: string, now: int): Outcome
    requires d in db.states && d in db.cases
  {
    match Publish(db, d, ReplyExpiredKey(d), ExpireReplyWindow, now)
    case Err(failure) => Err(failure)
    case Ok(next) => Ok(next.(cases := next.cases[d := next.cases[d].(status := UnderReview)]))
  }

  /** The sweep's loop over the first `n` selected rows. */
  function ExpireRows(db: Db, rows: seq<string>, n: nat, now: int): (r: Outcome)
    requires n <= |rows| && forall d | d in rows :: d in db.states && d in db.cases
    ensures r.Ok? ==> r.value.states.Keys == db.states.Keys && r.value.cases.Keys == db.cases.Keys
  {
    if n == 0 then Ok(db)
    else
      match ExpireRows(db, rows, n - 1, now)
      case Err(failure) => Err(failure)
      case Ok(next) => ExpireOne(next, rows[n - 1], now)
  }

  /** Closes unanswered windows whose deadline has passed; one failing row fails the whole sweep. */
  function ExpireWindows(db: Db, now: int, limit: nat, rows: seq<string>): Outcome {
    if limit == 0 || limit > 100 || !DueWindows(db, now, limit, rows) then Err(Rejected)
    else ExpireRows(db, rows, |rows|, now)
  }

  datatype Decision = ApprovePublic | WithholdFlag

  function Decide(db: Db, d: string, decision: Decision, at: int): Outcome
    requires d in db.states
  {
    match decision
    case ApprovePublic => Publish(db, d, ApproveKey(d, at), Approve(DIGEST), at)
    case WithholdFlag => Publish(db, d, WithholdKey(d, at), Withhold(DIGEST), at)
  }

  /** Human review: a received response is reviewed first, then the flag is approved or withheld. */
  function Review(db: Db, d: string, authorized: bool, decision: Decision, allowNamedParty: bool, at: int): Outcome {
    if decision == ApprovePublic && !allowNamedParty then Err(PublicationDisabled)
    else if !authorized then Err(NotAuthorized)
    else if !Reviewable(db, d) then Err(Rejected)
    else
      var reviewed :=
        if db.states[d].reply == ResponseReceived
        then Publish(db, d, ReviewResponseKey(d, at), ReviewResponse(DIGEST), at)
        else Ok(db);
      match reviewed
      case Err(failure) => Err(failure)
      case Ok(mid) =>
        match Decide(mid, d, decision, at)
        case Err(failure) => Err(failure)
        case Ok(next) => Ok(next.(cases := next.cases[d := next.cases[d].(status := CaseResolved)]))
  }

  predicate AmendmentTarget(db: Db, d: string, target: Key, at: int)
    requires d in db.states
  {
    exists i :: 0 <= i < |db.log| && db.log[i].key == target && db.log[i].discrepancyId == d
      && db.log[i].body.MeasuredBody? && db.log[i].body.event.version == db.states[d].version
      && db.log[i].at <= at
  }

  /** Appends a correction or retraction of a measurement event; retracting withdraws a public flag. */
  function Correct(db: Db, d: string, authorized: bool, target: Key, retract: bool, at: int): Outcome {
    if !authorized then Err(NotAuthorized)
    else if d !in db.cases || d !in db.states then Err(Rejected)
    else if !Nameable(target) then Err(Rejected)
    else if !Valid(db.states[d]) || !AmendmentTarget(db, d, target, at) then Err(Rejected)
    else
      var s := db.states[d];
      var withdrawn :=
        if retract && s.publication == ApprovedPublic
        then db.(states := db.states[d := s.(publication := Withheld, publicationUpdatedAt := at)])
        else db;
      Append(withdrawn, Entry(AmendmentKey(d, retract, at), d, at, AmendedBody(retract, target)))
  }

  predicate EarlierEntry(db: Db, d: string, target: Key, at: int) {
    exists i :: 0 <= i < |db.log| && db.log[i].key == target && db.log[i].discrepancyId == d && db.log[i].at <= at
  }

  /**
   * Appends an amendment under an identifier of the caller's choice, whatever the state of the discrepancy. `sameIdentity`
   * says that source and methodology version are those of the target.
   */
  function Amend(db: Db, text: string, d: string, target: Key, retract: bool, sameIdentity: bool, at: int): Outcome {
    if d !in db.states || !sameIdentity || !EarlierEntry(db, d, target, at) then Err(Rejected)
    else Append(db, Entry(TextKey(text), d, at, AmendedBody(retract, target)))
  }

  // ---- Measurement -------------------------------------------------------------------------------

  function MeasurementEntry(e: MeasurementEvent): Entry {
    Entry(TextKey(e.id), e.discrepancyId, e.at, MeasuredBody(e))
  }

  function LogEvents(db: Db, events: seq<MeasurementEvent>): Outcome {
    if events == [] then Ok(db)
    else
      match LogEvents(db, events[..|events| - 1])
      case Err(failure) => Err(failure)
      case Ok(next) => Append(next, MeasurementEntry(events[|events| - 1]))
  }

  /**
   * One completed measurement of the discrepancy `d`, read, advanced and persisted atomically. The upsert is guarded
   * by finalization time and identity, and keeps the first observation time of the row that was there.
   */
  function Measure(db: Db, d: string, sourceId: string, namedParty: bool, version: string, cycle: Cycle): Outcome {
    var prior := if d in db.states then Some(db.states[d]) else None;
    match Advance(prior, d, sourceId, namedParty, version, cycle)
    case Err(fault) => Err(ActionFault(fault))
    case Ok(a) =>
      if a.ignored.Some? || a.state.None? then Ok(db)
      else if prior.Some? && (a.state.value.lastFinalizedAt <= prior.value.lastFinalizedAt
                              || prior.value.version != a.state.value.version) then Err(Rejected)
      else
        var row := if prior.Some? then a.state.value.(firstObservedAt := prior.value.firstObservedAt) else a.state.value;
        LogEvents(db.(states := db.states[d := row]), a.events)
  }

  // ---- Runs --------------------------------------------------------------------------------------

  datatype Step =
    | OpenCaseStep(d: string, trigger: Key, openedAt: int, anchorVerified: bool, contacts: seq<Contact>)
    | EnqueueStep(newNotice: NoticeId, d: string, noticeKey: NoticeKey, wellFormed: bool, contactKnown: bool,
                  nextAttemptAt: Option<int>)
    | ClaimStep(worker: string, now: int, durationMs: int, limit: nat, claimed: seq<NoticeId>)
    | DeliverStep(notice: NoticeId, lease: Option<(string, nat)>, delivery: Delivery, startedAt: int, completedAt: int)
    | RequeueStep(notice: NoticeId, authorized: bool, at: int)
    | ReplyStep(d: string, authorized: bool, at: int)
    | ExpireStep(now: int, limit: nat, due: seq<string>)
    | ReviewStep(d: string, authorized: bool, decision: Decision, allowNamedParty: bool, at: int)
    | CorrectStep(d: string, authorized: bool, target: Key, retract: bool, at: int)
    | AmendStep(text: string, d: string, target: Key, retract: bool, sameIdentity: bool, at: int)
    | MeasureStep(d: string, sourceId: string, namedParty: bool, version: string, cycle: Cycle)

  function Perform(db: Db, step: Step): Outcome {
    match step
    case OpenCaseStep(d, trigger, openedAt, verified, contacts) => OpenCase(db, d, trigger, openedAt, verified, contacts)
    case EnqueueStep(id, d, key, wellFormed, contactKnown, next) => Enqueue(db, id, d, key, wellFormed, contactKnown, next)
    case ClaimStep(worker, now, durationMs, limit, claimed) => ClaimNotices(db, worker, now, durationMs, limit, claimed)
    case DeliverStep(id, lease, delivery, startedAt, completedAt) => Deliver(db, id, lease, delivery, startedAt, completedAt)
    case RequeueStep(id, authorized, at) => Requeue(db, id, authorized, at)
    case ReplyStep(d, authorized, at) => SubmitReply(db, d, authorized, at)
    case ExpireStep(now, limit, due) => ExpireWindows(db, now, limit, due)
    case ReviewStep(d, authorized, decision, allow, at) => Review(db, d, authorized, decision, allow, at)
    case CorrectStep(d, authorized, target, retract, at) => Correct(db, d, authorized, target, retract, at)
    case AmendStep(text, d, target, retract, sameIdentity, at) => Amend(db, text, d, target, retract, sameIdentity, at)
    case MeasureStep(d, sourceId, namedParty, version, cycle) => Measure(db, d, sourceId, namedParty, version, cycle)
  }

  /** A transaction that throws leaves the tables as they were. */
  function Take(db: Db, step: Step): Db {
    match Perform(db, step) case Ok(next) => next case Err(_) => db
  }

  /** Any interleaving of transactions, started on the given tables. */
  function Run(db: Db, steps: seq<Step>): Db {
    if steps == [] then db else Take(Run(db, steps[..|steps| - 1]), steps[|steps| - 1])
  }
}
