/** Limits of the case protocol that follow from its keys: when a window can begin again, and windows that never expire. */
module ReplyLimits {
  import opened Outcomes
  import opened Discrepancy
  import opened DiscrepancyLaws
  import opened ReplyCase
  import opened RightOfReply
  import opened ReplyTheorems

  // ---- Spent cases -------------------------------------------------------------------------------

  /** A notice of the case that can still be sent and named by the action that begins a window. */
  predicate Sendable(db: Db, d: string, n: NoticeId) {
    && n in db.notices && db.notices[n].discrepancyId == d && db.notices[n].status != Sent && Identifier(NoticeText(n))
  }

  /** The discrepancy is internal or withheld, and no notice of its case can begin a window. */
  ghost predicate Spent(db: Db, d: string) {
    && d in db.cases && d in db.states
    && (db.states[d].publication == Internal || db.states[d].publication == Withheld)
    && (forall n | n in db.notices && db.notices[n].discrepancyId == d ::
          db.notices[n].status == Sent || !Identifier(NoticeText(n)))
  }

  predicate Enqueues(step: Step, d: string) { step.EnqueueStep? && step.d == d }

  lemma {:induction false} PublishOnSpent(db: Db, d: string, key: Key, kind: ActionKind, at: int)
    requires Inv(db) && Spent(db, d) && !kind.BeginReply? && Publish(db, d, key, kind, at).Ok?
    ensures kind.Withhold? && Publish(db, d, key, kind, at).value.states[d].publication == Withheld
  {
    assert RowSound(db, d);
  }

  lemma {:induction false} ReviewOnSpent(db: Db, d: string, authorized: bool, decision: Decision, allow: bool, at: int)
    requires Inv(db) && Spent(db, d) && Review(db, d, authorized, decision, allow, at).Ok?
    ensures Spent(Review(db, d, authorized, decision, allow, at).value, d)
  {
    if db.states[d].reply == ResponseReceived {
      PublishOnSpent(db, d, ReviewResponseKey(d, at), ReviewResponse(DIGEST), at);
    } else if decision == ApprovePublic {
      PublishOnSpent(db, d, ApproveKey(d, at), Approve(DIGEST), at);
    } else {
      PublishOnSpent(db, d, WithholdKey(d, at), Withhold(DIGEST), at);
    }
  }

  /** Whatever a publication step does to another discrepancy, it leaves the row of `x` alone. */
  lemma {:induction false} ReviewElsewhere(db: Db, d: string, authorized: bool, decision: Decision, allow: bool, at: int, x: string)
    requires Review(db, d, authorized, decision, allow, at).Ok? && x != d && x in db.states
    ensures var next := Review(db, d, authorized, decision, allow, at).value;
      x in next.states && next.states[x] == db.states[x] && next.notices == db.notices && db.cases.Keys <= next.cases.Keys
  {}

  lemma {:induction false} ExpireElsewhere(db: Db, rows: seq<string>, n: nat, now: int, x: string)
    requires n <= |rows| && x !in rows && forall d | d in rows :: d in db.states && d in db.cases
    requires ExpireRows(db, rows, n, now).Ok? && x in db.states
    ensures var next := ExpireRows(db, rows, n, now).value;
      x in next.states && next.states[x] == db.states[x] && next.notices == db.notices && db.cases.Keys <= next.cases.Keys
  {
    if n > 0 {
      ExpireElsewhere(db, rows, n - 1, now, x);
      var mid, d := ExpireRows(db, rows, n - 1, now).value, rows[n - 1];
      PublishShape(mid, d, ReplyExpiredKey(d), ExpireReplyWindow, now);
    }
  }

  lemma {:induction false} MeasureOnSpent(db: Db, d: string, sourceId: string, namedParty: bool, version: string, cycle: Cycle)
    requires Inv(db) && Spent(db, d) && Measure(db, d, sourceId, namedParty, version, cycle).Ok?
    ensures Spent(Measure(db, d, sourceId, namedParty, version, cycle).value, d)
  {
    var prior := Some(db.states[d]);
    var a := Advance(prior, d, sourceId, namedParty, version, cycle).value;
    assert RowSound(db, d);
    if a.ignored.None? && a.state.Some? {
      var row := a.state.value.(firstObservedAt := prior.value.firstObservedAt);
      MeasuredRow(prior, d, sourceId, namedParty, version, cycle, a, row);
      EventsMove(db.(states := db.states[d := row]), a.events, d);
    }
  }

  lemma {:induction false} MeasureElsewhere(db: Db, d: string, sourceId: string, namedParty: bool, version: string, cycle: Cycle, x: string)
    requires Inv(db) && Spent(db, x) && x != d && Measure(db, d, sourceId, namedParty, version, cycle).Ok?
    ensures Spent(Measure(db, d, sourceId, namedParty, version, cycle).value, x)
  {
    var prior := if d in db.states then Some(db.states[d]) else None;
    var a := Advance(prior, d, sourceId, namedParty, version, cycle).value;
    assert RowSound(db, d);
    if a.ignored.None? && a.state.Some? {
      var row := if prior.Some? then a.state.value.(firstObservedAt := prior.value.firstObservedAt) else a.state.value;
      MeasuredRow(prior, d, sourceId, namedParty, version, cycle, a, row);
      EventsMove(db.(states := db.states[d := row]), a.events, d);
    }
  }

  lemma {:induction false} DeliverOnSpent(db: Db, id: NoticeId, lease: Option<(string, nat)>, delivery: Delivery, startedAt: int,
                       completedAt: int, x: string)
    requires Spent(db, x) && Deliver(db, id, lease, delivery, startedAt, completedAt).Ok?
    ensures Spent(Deliver(db, id, lease, delivery, startedAt, completedAt).value, x)
  {}

  lemma {:induction false} QueueStepsOnSpent(db: Db, step: Step, x: string)
    requires Spent(db, x) && Perform(db, step).Ok?
    requires step.OpenCaseStep? || step.EnqueueStep? || step.ClaimStep? || step.RequeueStep? || step.CorrectStep?
             || step.AmendStep?
    requires !Enqueues(step, x)
    ensures Spent(Perform(db, step).value, x)
  {}

  lemma {:induction false} ReplyOnSpent(db: Db, d: string, authorized: bool, at: int, x: string)
    requires Inv(db) && Spent(db, x) && SubmitReply(db, d, authorized, at).Ok?
    ensures Spent(SubmitReply(db, d, authorized, at).value, x)
  {
    assert RowSound(db, x);
  }

  lemma {:induction false} PerformOnSpent(db: Db, step: Step, x: string)
    requires Inv(db) && Spent(db, x) && Perform(db, step).Ok? && !Enqueues(step, x)
    ensures Spent(Perform(db, step).value, x)
  {
    match step
    case OpenCaseStep(_, _, _, _, _) => QueueStepsOnSpent(db, step, x);
    case EnqueueStep(_, _, _, _, _, _) => QueueStepsOnSpent(db, step, x);
    case ClaimStep(_, _, _, _, _) => QueueStepsOnSpent(db, step, x);
    case DeliverStep(id, lease, delivery, startedAt, completedAt) =>
      DeliverOnSpent(db, id, lease, delivery, startedAt, completedAt, x);
    case RequeueStep(_, _, _) => QueueStepsOnSpent(db, step, x);
    case ReplyStep(d, authorized, at) => ReplyOnSpent(db, d, authorized, at, x);
    case ExpireStep(now, limit, due) => ExpireElsewhere(db, due, |due|, now, x);
    case ReviewStep(d, authorized, decision, allow, at) =>
      if d == x { ReviewOnSpent(db, d, authorized, decision, allow, at); }
      else { ReviewElsewhere(db, d, authorized, decision, allow, at, x); }
    case CorrectStep(_, _, _, _, _) => QueueStepsOnSpent(db, step, x);
    case AmendStep(_, _, _, _, _, _) => QueueStepsOnSpent(db, step, x);
    case MeasureStep(d, sourceId, namedParty, version, cycle) =>
      if d == x { MeasureOnSpent(db, d, sourceId, namedParty, version, cycle); }
      else { MeasureElsewhere(db, d, sourceId, namedParty, version, cycle, x); }
  }

  /** Unless a notice is enqueued for it, a spent discrepancy is never pending or public again, whatever the run. */
  lemma {:induction false} SpentForever(db: Db, steps: seq<Step>, d: string)
    requires Inv(db) && Spent(db, d) && forall step | step in steps :: !Enqueues(step, d)
    ensures Spent(Run(db, steps), d)
    ensures Run(db, steps).states[d].publication != PendingReply && Run(db, steps).states[d].publication != ApprovedPublic
  {
    if steps != [] {
      var mid, step := Run(db, steps[..|steps| - 1]), steps[|steps| - 1];
      SpentForever(db, steps[..|steps| - 1], d);
      RunKeeps(db, steps[..|steps| - 1]);
      if Perform(mid, step).Ok? { PerformOnSpent(mid, step, d); }
    }
  }

  // ---- When a window can begin -------------------------------------------------------------------

  /** An open deviation above Info of a discrepancy with a case, not published in any way. */
  predicate Flagged(db: Db, d: string) {
    && d in db.cases && d in db.states
    && db.states[d].lifecycle == Open && db.states[d].severity != Info && db.states[d].publication == Internal
  }

  predicate Pending(db: Db, d: string) { d in db.states && db.states[d].publication == PendingReply }

  /** Late enough for any check on the time of a delivery. */
  function Late(db: Db, d: string): int
    requires d in db.cases && d in db.states
  {
    if db.states[d].publicationUpdatedAt < db.cases[d].openedAt then db.cases[d].openedAt else db.states[d].publicationUpdatedAt
  }

  function Delivering(n: NoticeId, at: int): Step { DeliverStep(n, None, Delivered, at, at) }

  lemma {:induction false} NoticeUnlogged(db: Db, d: string, n: NoticeId)
    requires Inv(db) && Sendable(db, d, n)
    ensures !HasKey(db.log, BeginReplyKey(d, n)) && (n, db.notices[n].attempts + 1) !in db.attempts
  {
    forall i | 0 <= i < |db.log| ensures db.log[i].key != BeginReplyKey(d, n) { assert Witnessed(db, db.log[i]); }
  }

  /** The tables after a sendable notice of a flagged discrepancy was delivered. */
  function Began(db: Db, d: string, n: NoticeId, at: int): Db
    requires Flagged(db, d) && Sendable(db, d, n)
  {
    db.(attempts := db.attempts + {(n, db.notices[n].attempts + 1)},
        notices := db.notices[n := SentNotice(db.notices[n], at)],
        states := db.states[d := db.states[d].(publication := PendingReply, reply := AwaitingReply, publicationUpdatedAt := at)],
        cases := db.cases[d := db.cases[d].(status := CaseAwaitingReply, replyDueAt := Some(at + REPLY_WINDOW_MS))],
        log := db.log + [Entry(BeginReplyKey(d, n), d, at, PublishedBody(BeginReply(NoticeText(n))))])
  }

  lemma {:induction false} WindowBegins(s: State, n: NoticeId, at: int)
    requires Valid(s) && s.namedParty && s.lifecycle == Open && s.severity != Info && s.publication == Internal
    requires Identifier(NoticeText(n)) && s.publicationUpdatedAt <= at
    ensures var r := Transition(s, Action(DIGEST, at, BeginReply(NoticeText(n))));
      r.Ok? && r.value.state == s.(publication := PendingReply, reply := AwaitingReply, publicationUpdatedAt := at)
  {
    assert Identifier(DIGEST);
  }

  /** Delivering a sendable notice begins a window. */
  lemma {:induction false} DeliveryBegins(db: Db, d: string, n: NoticeId, at: int)
    requires Inv(db) && Flagged(db, d) && Sendable(db, d, n)
    requires db.states[d].publicationUpdatedAt <= at && db.cases[d].openedAt <= at
    ensures Take(db, Delivering(n, at)) == Began(db, d, n, at)
  {
    NoticeUnlogged(db, d, n);
    assert RowSound(db, d);
    WindowBegins(db.states[d], n, at);
    var sent := db.(attempts := db.attempts + {(n, db.notices[n].attempts + 1)},
                    notices := db.notices[n := SentNotice(db.notices[n], at)]);
    assert Publish(sent, d, BeginReplyKey(d, n), BeginReply(NoticeText(n)), at).Ok?;
    assert BeginWindow(sent, d, n, at) == Ok(Began(db, d, n, at));
  }

  lemma {:induction false} OneStep(db: Db, step: Step)
    ensures Run(db, [step]) == Take(db, step)
  {
    assert [step][..0] == [] && Run(db, []) == db;
  }

  lemma {:induction false} NothingSendable(db: Db, d: string)
    requires Flagged(db, d) && forall n :: !Sendable(db, d, n)
    ensures Spent(db, d)
  {
    forall n | n in db.notices && db.notices[n].discrepancyId == d
      ensures db.notices[n].status == Sent || !Identifier(NoticeText(n))
    {
      assert !Sendable(db, d, n);
    }
  }

  /** A window can begin without a further notice exactly when one is left to send. */
  lemma {:induction false} BeginsAgainExactly(db: Db, d: string)
    requires Inv(db) && Flagged(db, d)
    ensures (exists steps :: (forall step | step in steps :: !Enqueues(step, d)) && Pending(Run(db, steps), d))
      <==> exists n :: Sendable(db, d, n)
  {
    if n :| Sendable(db, d, n) {
      var step := Delivering(n, Late(db, d));
      DeliveryBegins(db, d, n, Late(db, d));
      OneStep(db, step);
      assert (forall other | other in [step] :: !Enqueues(other, d)) && Pending(Run(db, [step]), d);
    } else {
      NothingSendable(db, d);
      forall steps | forall step | step in steps :: !Enqueues(step, d) ensures !Pending(Run(db, steps), d) {
        SpentForever(db, steps, d);
      }
    }
  }

  /** Enqueueing a notice with an unused identifier and key makes it begin again. */
  lemma {:induction false} EnqueueingBegins(db: Db, d: string, n: NoticeId, key: NoticeKey, next: Option<int>)
    requires Inv(db) && Flagged(db, d) && Identifier(NoticeText(n)) && n !in db.notices && !KeyUsed(db.notices, key)
    ensures Pending(Take(Take(db, EnqueueStep(n, d, key, true, true, next)), Delivering(n, Late(db, d))), d)
  {
    EnqueueKeeps(db, n, d, key, true, true, next);
    DeliveryBegins(Take(db, EnqueueStep(n, d, key, true, true, next)), d, n, Late(db, d));
  }

  // ---- Runs from a state -------------------------------------------------------------------------

  ghost predicate Leads(from: Db, db: Db) { exists steps :: Run(from, steps) == db }

  ghost predicate Reachable(db: Db) { Leads(EMPTY, db) }

  lemma {:induction false} LeadsOn(from: Db, db: Db, step: Step)
    requires Inv(from) && Leads(from, db)
    ensures Leads(from, Take(db, step)) && Inv(db) && Inv(Take(db, step))
  {
    var steps :| Run(from, steps) == db;
    RunKeeps(from, steps);
    assert (steps + [step])[..|steps|] == steps;
    assert Run(from, steps + [step]) == Take(db, step);
    if Perform(db, step).Ok? { PerformKeeps(db, step); }
  }

  lemma {:induction false} RunJoins(from: Db, steps: seq<Step>, more: seq<Step>)
    ensures Run(Run(from, steps), more) == Run(from, steps + more)
  {
    if more == [] {
      assert steps + more == steps;
    } else {
      RunJoins(from, steps, more[..|more| - 1]);
      assert (steps + more)[..|steps + more| - 1] == steps + more[..|more| - 1];
    }
  }

  lemma {:induction false} LeadsThrough(from: Db, mid: Db, to: Db)
    requires Leads(from, mid) && Leads(mid, to)
    ensures Leads(from, to)
  {
    var steps :| Run(from, steps) == mid;
    var more :| Run(mid, more) == to;
    RunJoins(from, steps, more);
  }

  lemma {:induction false} EmptyIsSound()
    ensures Inv(EMPTY) && Leads(EMPTY, EMPTY)
  {
    ReachableInv([]);
    assert Run(EMPTY, []) == EMPTY;
  }

  // ---- A named party with two contacts -----------------------------------------------------------

  const D: string := "d1"
  const NOTICE_A: NoticeId := InitialNotice(D, "a")
  const NOTICE_B: NoticeId := InitialNotice(D, "b")

  function Unsent(n: NoticeId): Notice
    requires n.InitialNotice?
  {
    FreshNotice(D, InitialKey(D, n.contactId), None)
  }

  /** A Warning of the named party, with the given publication fields and times. */
  function WarningOf(publication: Publication, reply: ReplyReview, cycles: int, at: int, cycleId: string, updatedAt: int): State {
    State(D, "s1", "v1", true, Warning, Open, publication, reply, cycles, 1, 0, at, at, cycleId, updatedAt)
  }

  lemma {:induction false} ShortIdentifiers()
    ensures Identifier(D) && Identifier("s1") && Identifier("v1") && Identifier("c1") && Identifier("c2") && Identifier("c3")
    ensures Identifier(DIGEST)
  {}

  /** No measurement event of the cycle is logged. */
  ghost predicate Unmeasured(log: seq<Entry>, cycleId: string) {
    forall k: Kind :: !HasKey(log, TextKey(EventId(D, cycleId, k)))
  }

  /** Neither of the two later cycles. */
  ghost predicate Early(log: seq<Entry>) { Unmeasured(log, "c2") && Unmeasured(log, "c3") }

  lemma {:induction false} AppendUnmeasured(log: seq<Entry>, e: Entry, cycleId: string)
    requires Unmeasured(log, cycleId) && forall k: Kind :: e.key != TextKey(EventId(D, cycleId, k))
    ensures Unmeasured(log + [e], cycleId)
  {
    forall k: Kind ensures !HasKey(log + [e], TextKey(EventId(D, cycleId, k))) {
    }
  }

  lemma {:induction false} ActionStaysEarly(log: seq<Entry>, e: Entry)
    requires Early(log) && !e.key.TextKey?
    ensures Early(log + [e])
  {
    AppendUnmeasured(log, e, "c2");
    AppendUnmeasured(log, e, "c3");
  }

  lemma {:induction false} StaysUnmeasured(log: seq<Entry>, longer: seq<Entry>, cycleId: string, kind: Kind, other: string)
    requires Unmeasured(log, other) && other != cycleId
    requires |longer| == |log| + 1 && longer[..|log|] == log && longer[|log|].key == TextKey(EventId(D, cycleId, kind))
    ensures Unmeasured(longer, other)
  {
    forall k: Kind ensures longer[|log|].key != TextKey(EventId(D, other, k)) {
      if EventId(D, cycleId, kind) == EventId(D, other, k) { EventIdInjective(D, cycleId, kind, D, other, k); }
    }
    assert longer == log + [longer[|log|]];
    AppendUnmeasured(log, longer[|log|], other);
  }

  /** A measurement that logs one event takes the stored row to `row`. */
  lemma {:induction false} OneMeasurement(db: Db, cycle: Cycle, row: State, kind: Kind)
    requires D in db.states && Unmeasured(db.log, cycle.id)
    requires db.states[D].firstObservedAt == row.firstObservedAt
    requires var r := Advance(Some(db.states[D]), D, "s1", true, "v1", cycle);
      && r.Ok? && r.value.state == Some(row) && r.value.ignored.None?
      && |r.value.events| == 1 && r.value.events[0].id == EventId(D, cycle.id, kind)
      && r.value.events[0].kind != ResolvedEvent
      && row.lastFinalizedAt > db.states[D].lastFinalizedAt && row.version == db.states[D].version
    ensures var r := Measure(db, D, "s1", true, "v1", cycle);
      && r.Ok? && r.value == db.(states := db.states[D := row], log := r.value.log)
      && |r.value.log| == |db.log| + 1 && r.value.log[..|db.log|] == db.log
      && r.value.log[|db.log|].key == TextKey(EventId(D, cycle.id, kind))
  {
    var events := Advance(Some(db.states[D]), D, "s1", true, "v1", cycle).value.events;
    assert events == [events[0]];
    var stored := db.(states := db.states[D := row]);
    assert row.(firstObservedAt := db.states[D].firstObservedAt) == row;
    assert events[..0] == [];
    assert LogEvents(stored, []) == Ok(stored);
    assert LogEvents(stored, events) == Append(stored, MeasurementEntry(events[0]));
  }

  const FIRST_CYCLE: Cycle := Cycle("c1", 0, AboveInfo)

  function FirstRow(): State { WarningOf(Internal, NotRequired, 1, 0, "c1", 0) }

  lemma {:induction false} FirstAdvance() returns (e: MeasurementEvent)
    ensures Advance(None, D, "s1", true, "v1", FIRST_CYCLE) == Ok(Advanced(Some(FirstRow()), [e], None))
    ensures e.id == EventId(D, "c1", Opened) && e.kind == Opened && e.discrepancyId == D
  {
    ShortIdentifiers();
    e := Advance(None, D, "s1", true, "v1", FIRST_CYCLE).value.events[0];
  }

  lemma {:induction false} FirstMeasurement() returns (next: Db, key: Key)
    ensures Reachable(next) && next == EMPTY.(states := map[D := FirstRow()], log := next.log)
    ensures EligibleTrigger(next.log, D, key) && Nameable(key) && !HasKey(next.log, ReplyExpiredKey(D)) && Early(next.log)
  {
    EmptyIsSound();
    var e := FirstAdvance();
    var entry := MeasurementEntry(e);
    var stored := EMPTY.(states := EMPTY.states[D := FirstRow()]);
    assert [e][..0] == [] && LogEvents(stored, []) == Ok(stored);
    assert LogEvents(stored, [e]) == Append(stored, entry);
    next := stored.(log := [] + [entry]);
    assert Measure(EMPTY, D, "s1", true, "v1", FIRST_CYCLE) == Ok(next);
    LeadsOn(EMPTY, EMPTY, MeasureStep(D, "s1", true, "v1", FIRST_CYCLE));
    key := entry.key;
    EventIdIsIdentifierExactly(D, "c1", Opened);
    ShortIdentifiers();
    assert next.log[0] == entry;
    StaysUnmeasured([], next.log, "c1", Opened, "c2");
    StaysUnmeasured([], next.log, "c1", Opened, "c3");
  }

  const CONTACTS: seq<Contact> := [Contact("a", 0), Contact("b", 0)]

  lemma {:induction false} TwoNotices()
    ensures InitialNotices(D, CONTACTS) == map[NOTICE_A := Unsent(NOTICE_A), NOTICE_B := Unsent(NOTICE_B)]
    ensures UniqueContacts(CONTACTS) && forall c | c in CONTACTS :: Identifier(c.id) && c.verifiedAt == 0
  {
    assert CONTACTS[0] == Contact("a", 0) && CONTACTS[1] == Contact("b", 0);
    assert forall c | c in CONTACTS :: c == CONTACTS[0] || c == CONTACTS[1];
  }

  /** A case with two notices, opened before anything was sent. */
  ghost predicate CaseOpen(db: Db) {
    && Reachable(db) && db.states == map[D := FirstRow()] && db.cases == map[D := Case(Draft, 0, None)] && db.attempts == {}
    && db.notices == map[NOTICE_A := Unsent(NOTICE_A), NOTICE_B := Unsent(NOTICE_B)]
    && !HasKey(db.log, ReplyExpiredKey(D)) && Early(db.log)
  }

  lemma {:induction false} FirstRowIsEligible()
    ensures Valid(FirstRow()) && EligibleState(FirstRow())
  {
    ShortIdentifiers();
  }

  lemma {:induction false} FirstCase(db: Db, key: Key)
    requires db == EMPTY.(states := map[D := FirstRow()], log := db.log) && EligibleTrigger(db.log, D, key) && Nameable(key)
    ensures OpenCase(db, D, key, 0, true, CONTACTS)
      == Ok(db.(cases := map[D := Case(Draft, 0, None)], notices := InitialNotices(D, CONTACTS)))
  {
    FirstRowIsEligible();
    TwoNotices();
    assert CONTACTS != [] && !NoticesTaken(db.notices, D, CONTACTS);
    assert db.cases[D := Case(Draft, 0, None)] == map[D := Case(Draft, 0, None)];
    assert db.notices + InitialNotices(D, CONTACTS) == InitialNotices(D, CONTACTS);
  }

  lemma {:induction false} CaseOpened() returns (next: Db)
    ensures CaseOpen(next)
  {
    var db, key := FirstMeasurement();
    TwoNotices();
    EmptyIsSound();
    LeadsOn(EMPTY, db, OpenCaseStep(D, key, 0, true, CONTACTS));
    FirstCase(db, key);
    next := db.(cases := map[D := Case(Draft, 0, None)], notices := InitialNotices(D, CONTACTS));
  }

  function Later(n: int): int { n + REPLY_WINDOW_MS }

  /** The first notice was sent and began a window, the second was not. */
  ghost predicate Begun(db: Db) {
    && Reachable(db) && D in db.states && db.states[D] == WarningOf(PendingReply, AwaitingReply, 1, 0, "c1", 1)
    && D in db.cases && db.cases[D] == Case(CaseAwaitingReply, 0, Some(Later(1)))
    && db.notices.Keys == {NOTICE_A, NOTICE_B} && db.notices[NOTICE_A].status == Sent
    && db.notices[NOTICE_B] == Unsent(NOTICE_B) && (NOTICE_B, 1) !in db.attempts
    && !HasKey(db.log, ReplyExpiredKey(D)) && Early(db.log)
  }

  lemma {:induction false} WindowOpened(db: Db) returns (next: Db)
    requires CaseOpen(db)
    ensures Begun(next)
  {
    ShortIdentifiers();
    EmptyIsSound();
    LeadsOn(EMPTY, db, Delivering(NOTICE_A, 1));
    DeliveryBegins(db, D, NOTICE_A, 1);
    next := Began(db, D, NOTICE_A, 1);
    ActionStaysEarly(db.log, next.log[|db.log|]);
  }

  // ---- A measurement reset -----------------------------------------------------------------------

  const INFO_CYCLE: Cycle := Cycle("c2", 2 + REPLY_WINDOW_MS, InfoBand)
  const ABOVE_CYCLE: Cycle := Cycle("c3", 3 + REPLY_WINDOW_MS, AboveInfo)

  function InfoRow(): State {
    State(D, "s1", "v1", true, Info, Open, Internal, NotRequired, 2, 0, 0, 2 + REPLY_WINDOW_MS, 2 + REPLY_WINDOW_MS, "c2",
          2 + REPLY_WINDOW_MS)
  }

  function WarningAgain(): State { WarningOf(Internal, NotRequired, 3, 3 + REPLY_WINDOW_MS, "c3", 2 + REPLY_WINDOW_MS) }

  /** Some stage of the window that began with the first cycle. */
  predicate InWindow(s: State) { Valid(s) && s == WarningOf(PendingReply, s.reply, 1, 0, "c1", s.publicationUpdatedAt) }

  lemma {:induction false} FallsToInfo(s: State)
    requires InWindow(s)
    ensures var r := Advance(Some(s), D, "s1", true, "v1", INFO_CYCLE);
      r.Ok? && r.value.state == Some(InfoRow()) && r.value.ignored.None?
      && |r.value.events| == 1 && r.value.events[0].id == EventId(D, "c2", Observed)
      && r.value.events[0].kind == Observed
  {
    ShortIdentifiers();
  }

  lemma {:induction false} RisesAgain()
    ensures var r := Advance(Some(InfoRow()), D, "s1", true, "v1", ABOVE_CYCLE);
      r.Ok? && r.value.state == Some(WarningAgain()) && r.value.ignored.None?
      && |r.value.events| == 1 && r.value.events[0].id == EventId(D, "c3", Escalated)
      && r.value.events[0].kind == Escalated
  {
    ShortIdentifiers();
  }

  lemma {:induction false} KeyStays(log: seq<Entry>, longer: seq<Entry>, key: Key)
    requires HasKey(log, key) && log <= longer
    ensures HasKey(longer, key)
  {
    var i :| 0 <= i < |log| && log[i].key == key;
    assert longer[i].key == key;
  }

  lemma {:induction false} FallToInfo(from: Db, db: Db) returns (next: Db)
    requires Inv(from) && Leads(from, db) && D in db.states && InWindow(db.states[D]) && Early(db.log)
    ensures Leads(from, next) && db.log <= next.log && Unmeasured(next.log, "c3")
    ensures next == db.(states := db.states[D := InfoRow()], log := next.log)
  {
    FallsToInfo(db.states[D]);
    OneMeasurement(db, INFO_CYCLE, InfoRow(), Observed);
    next := Measure(db, D, "s1", true, "v1", INFO_CYCLE).value;
    assert Take(db, MeasureStep(D, "s1", true, "v1", INFO_CYCLE)) == next;
    LeadsOn(from, db, MeasureStep(D, "s1", true, "v1", INFO_CYCLE));
    StaysUnmeasured(db.log, next.log, "c2", Observed, "c3");
  }

  /** The deviation falls to Info and rises again: the discrepancy is internal, and everything beside it is as before. */
  lemma {:induction false} ResetReopens(from: Db, db: Db) returns (next: Db)
    requires Inv(from) && Leads(from, db) && D in db.states && InWindow(db.states[D]) && Early(db.log)
    ensures Leads(from, next) && db.log <= next.log
    ensures next == db.(states := db.states[D := WarningAgain()], log := next.log)
  {
    var mid := FallToInfo(from, db);
    RisesAgain();
    OneMeasurement(mid, ABOVE_CYCLE, WarningAgain(), Escalated);
    next := Measure(mid, D, "s1", true, "v1", ABOVE_CYCLE).value;
    assert Take(mid, MeasureStep(D, "s1", true, "v1", ABOVE_CYCLE)) == next;
    LeadsOn(from, mid, MeasureStep(D, "s1", true, "v1", ABOVE_CYCLE));
    assert mid.states[D := WarningAgain()] == db.states[D := WarningAgain()];
  }

  lemma {:induction false} BothSent(db: Db) returns (both: Db)
    requires Begun(db)
    ensures Reachable(both) && both == db.(notices := both.notices, attempts := both.attempts)
    ensures forall n :: !Sendable(both, D, n)
  {
    EmptyIsSound();
    LeadsOn(EMPTY, db, Delivering(NOTICE_B, 2));
    both := Take(db, Delivering(NOTICE_B, 2));
    assert db.notices[NOTICE_B].discrepancyId == D;
    assert both.notices == db.notices[NOTICE_B := SentNotice(db.notices[NOTICE_B], 2)];
  }

  /** Both notices are delivered and a reset follows: the flagged discrepancy is spent. */
  lemma {:induction false} SpentIsReachable()
    ensures exists db :: Reachable(db) && Flagged(db, D) && Spent(db, D)
  {
    var opening := CaseOpened();
    var db := WindowOpened(opening);
    var both := BothSent(db);
    EmptyIsSound();
    BegunIsSound(db);
    assert RowSound(db, D);
    var next := ResetReopens(EMPTY, both);
    assert forall n :: Sendable(next, D, n) ==> Sendable(both, D, n);
    assert Flagged(next, D);
    NothingSendable(next, D);
  }

  // ---- The second window of a discrepancy --------------------------------------------------------

  lemma {:induction false} WindowExpires(from: Db) returns (next: Db)
    requires Begun(from)
    ensures Leads(from, next) && next == from.(states := next.states, cases := next.cases, log := next.log)
    ensures D in next.states && next.states[D] == WarningOf(PendingReply, WindowExpired, 1, 0, "c1", Later(1))
    ensures D in next.cases && next.cases[D].openedAt == 0
    ensures HasKey(next.log, ReplyExpiredKey(D)) && Early(next.log)
  {
    ShortIdentifiers();
    BegunIsSound(from);
    LeadsOn(from, from, ExpireStep(Later(1), 1, [D]));
    var e := Entry(ReplyExpiredKey(D), D, Later(1), PublishedBody(ExpireReplyWindow));
    assert [D][0] == D;
    assert ExpireRows(from, [D], 0, Later(1)) == Ok(from);
    assert ExpireRows(from, [D], 1, Later(1)) == ExpireOne(from, D, Later(1));
    assert ExpireOne(from, D, Later(1)).Ok?;
    next := Take(from, ExpireStep(Later(1), 1, [D]));
    assert next.log == from.log + [e];
    assert next.log[|from.log|].key == ReplyExpiredKey(D);
    ActionStaysEarly(from.log, e);
  }

  lemma {:induction false} BegunIsSound(db: Db)
    requires Begun(db)
    ensures Inv(db) && Leads(db, db)
  {
    var steps :| Run(EMPTY, steps) == db;
    ReachableInv(steps);
    assert Run(db, []) == db;
  }

  /** The second notice begins a second window: the deadline is a later one, and the expiry has been logged before. */
  ghost predicate SecondWindow(from: Db, next: Db) {
    && Leads(from, next) && Deadline(from, D) == Some(Later(1)) && Deadline(next, D) == Some(Later(Later(4)))
    && WindowDue(next, D, Later(Later(4))) && HasKey(next.log, ReplyExpiredKey(D))
  }

  lemma {:induction false} SecondNoticeBegins(from: Db, db: Db) returns (next: Db)
    requires Begun(from) && Leads(from, db) && Inv(db) && db.notices == from.notices && db.attempts == from.attempts
    requires D in db.states && db.states[D] == WarningAgain() && D in db.cases && db.cases[D].openedAt == 0
    requires HasKey(db.log, ReplyExpiredKey(D))
    ensures SecondWindow(from, next)
  {
    ShortIdentifiers();
    BegunIsSound(from);
    LeadsOn(from, db, Delivering(NOTICE_B, Later(4)));
    DeliveryBegins(db, D, NOTICE_B, Later(4));
    next := Began(db, D, NOTICE_B, Later(4));
    KeyStays(db.log, next.log, ReplyExpiredKey(D));
  }

  /** Reachable states between which the deadline moves: a window expires, a reset follows, and the second notice goes out. */
  lemma {:induction false} DeadlineMoves() returns (from: Db, next: Db)
    ensures Begun(from) && SecondWindow(from, next)
  {
    var opening := CaseOpened();
    from := WindowOpened(opening);
    var expired := WindowExpires(from);
    BegunIsSound(from);
    var db := ResetReopens(from, expired);
    KeyStays(expired.log, db.log, ReplyExpiredKey(D));
    var steps :| Run(from, steps) == db;
    RunKeeps(from, steps);
    next := SecondNoticeBegins(from, db);
  }

  /**
   * The failing family of the sweep is reachable: the window of a named party expires, the deviation falls to Info and
   * rises again, the second contact is notified, and 72 hours later the sweep that selects the row throws.
   */
  lemma {:induction false} SecondWindowCannotExpire()
    ensures exists db, now :: Reachable(db) && DueWindows(db, now, 1, [D]) && ExpireWindows(db, now, 1, [D]) == Err(KeyConflict)
  {
    var from, db := DeadlineMoves();
    LeadsThrough(EMPTY, from, db);
    var now := Later(Later(4));
    assert [D][0] == D;
    assert DueWindows(db, now, 1, [D]);
    var steps :| Run(EMPTY, steps) == db;
    ExpirySweepExactly(steps, now, 1, [D]);
    assert !NoneExpired(db.log, [D], 1);
  }
}
