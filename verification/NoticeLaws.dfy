/** The queue of notices: attempts are counted, leases exclude each other, and what was sent stays sent. */
module NoticeLaws {
  import opened Outcomes
  import opened Discrepancy
  import opened ReplyCase
  import opened RightOfReply

  // ---- Every notice of every run -----------------------------------------------------------------

  /** A notice is pending until its first attempt, sent at a time, and leased to a worker until one. */
  predicate NoticeSound(n: Notice) {
    && (n.status == NoticeStatus.Pending <==> n.attempts == 0)
    && (n.status == Sent <==> n.sentAt.Some?)
    && (n.leaseOwner.Some? <==> n.leaseExpiresAt.Some?)
    && (n.status == Sent ==> n.leaseOwner.None? && n.nextAttemptAt.None?)
  }

  /** The attempts of a notice are recorded under the numbers from one up to its count. */
  ghost predicate Counted(db: Db, id: NoticeId) {
    && (forall k :: (id, k) in db.attempts <==> id in db.notices && 1 <= k <= db.notices[id].attempts)
    && (id in db.notices ==> NoticeSound(db.notices[id]))
  }

  /** How one transaction may move a notice. */
  predicate NoticeMoves(db: Db, next: Db, id: NoticeId) {
    id in db.notices ==>
      && id in next.notices
      && next.notices[id].discrepancyId == db.notices[id].discrepancyId && next.notices[id].key == db.notices[id].key
      && db.notices[id].attempts <= next.notices[id].attempts && db.notices[id].leaseToken <= next.notices[id].leaseToken
      && (db.notices[id].status == Sent ==> next.notices[id] == db.notices[id])
  }

  lemma {:induction false} ExpiryLeavesNotices(db: Db, rows: seq<string>, n: nat, now: int)
    requires n <= |rows| && (forall d | d in rows :: d in db.states && d in db.cases) && ExpireRows(db, rows, n, now).Ok?
    ensures ExpireRows(db, rows, n, now).value.notices == db.notices && ExpireRows(db, rows, n, now).value.attempts == db.attempts
  {
    if n > 0 { ExpiryLeavesNotices(db, rows, n - 1, now); }
  }

  lemma {:induction false} EventsLeaveNotices(db: Db, events: seq<MeasurementEvent>)
    requires LogEvents(db, events).Ok?
    ensures LogEvents(db, events).value == db.(log := LogEvents(db, events).value.log)
  {
    if events != [] { EventsLeaveNotices(db, events[..|events| - 1]); }
  }

  predicate Handles(step: Step) { step.OpenCaseStep? || step.EnqueueStep? || step.ClaimStep? || step.DeliverStep? || step.RequeueStep? }

  /** Only these transactions touch notices. */
  lemma {:induction false} OthersLeaveNotices(db: Db, step: Step)
    requires !Handles(step) && Perform(db, step).Ok?
    ensures Perform(db, step).value.notices == db.notices && Perform(db, step).value.attempts == db.attempts
  {
    if step.ExpireStep? { ExpiryLeavesNotices(db, step.due, |step.due|, step.now); }
    else if step.MeasureStep? { MeasureLeavesNotices(db, step); }
    else if step.ReviewStep? { ReviewLeavesNotices(db, step); }
  }

  lemma {:induction false} ReviewLeavesNotices(db: Db, step: Step)
    requires step.ReviewStep? && Perform(db, step).Ok?
    ensures Perform(db, step).value.notices == db.notices && Perform(db, step).value.attempts == db.attempts
  {}

  lemma {:induction false} MeasureLeavesNotices(db: Db, step: Step)
    requires step.MeasureStep? && Perform(db, step).Ok?
    ensures Perform(db, step).value.notices == db.notices && Perform(db, step).value.attempts == db.attempts
  {
    var prior := if step.d in db.states then Some(db.states[step.d]) else None;
    var a := Advance(prior, step.d, step.sourceId, step.namedParty, step.version, step.cycle).value;
    if a.ignored.None? && a.state.Some? {
      var row := if prior.Some? then a.state.value.(firstObservedAt := prior.value.firstObservedAt) else a.state.value;
      EventsLeaveNotices(db.(states := db.states[step.d := row]), a.events);
    }
  }

  lemma {:induction false} DeliverCounts(db: Db, step: Step, id: NoticeId)
    requires step.DeliverStep? && Perform(db, step).Ok? && Counted(db, id) && Counted(db, step.notice)
    ensures Counted(Perform(db, step).value, id) && NoticeMoves(db, Perform(db, step).value, id)
  {
    DeliverHandles(db, step);
  }

  /** What a delivery does to the queue: nothing, or one attempt of its notice. */
  lemma {:induction false} DeliverHandles(db: Db, step: Step)
    requires step.DeliverStep? && Perform(db, step).Ok?
    ensures step.notice in db.notices
    ensures var next, n := Perform(db, step).value, db.notices[step.notice];
      || (next.notices == db.notices && next.attempts == db.attempts)
      || (&& n.status != Sent && next.attempts == db.attempts + {(step.notice, n.attempts + 1)}
          && next.notices == db.notices[step.notice := if step.delivery.Delivered? then SentNotice(n, step.completedAt)
                                                       else FailedNotice(n, step.delivery.nextAttemptAt)])
  {}

  lemma {:induction false} OpenCounts(db: Db, step: Step, id: NoticeId)
    requires step.OpenCaseStep? && Perform(db, step).Ok? && Counted(db, id)
    ensures Counted(Perform(db, step).value, id) && NoticeMoves(db, Perform(db, step).value, id)
  {}

  lemma {:induction false} QueueCounts(db: Db, step: Step, id: NoticeId)
    requires (step.EnqueueStep? || step.ClaimStep? || step.RequeueStep?) && Perform(db, step).Ok? && Counted(db, id)
    ensures Counted(Perform(db, step).value, id) && NoticeMoves(db, Perform(db, step).value, id)
  {}

  lemma {:induction false} TakeCounts(db: Db, step: Step, id: NoticeId)
    requires forall n :: Counted(db, n)
    ensures Counted(Take(db, step), id) && NoticeMoves(db, Take(db, step), id)
  {
    if Perform(db, step).Ok? {
      assert Counted(db, id);
      if step.DeliverStep? { assert Counted(db, step.notice); DeliverCounts(db, step, id); }
      else if step.OpenCaseStep? { OpenCounts(db, step, id); }
      else if Handles(step) { QueueCounts(db, step, id); }
      else { OthersLeaveNotices(db, step); }
    }
  }

  /** In every run each notice is sound, and its recorded attempts are numbered from one up to its count. */
  lemma {:induction false} AttemptsAreCounted(steps: seq<Step>)
    ensures forall id :: Counted(Run(EMPTY, steps), id)
  {
    if steps != [] {
      AttemptsAreCounted(steps[..|steps| - 1]);
      forall id ensures Counted(Run(EMPTY, steps), id) { TakeCounts(Run(EMPTY, steps[..|steps| - 1]), steps[|steps| - 1], id); }
    }
  }

  // ---- Sending -----------------------------------------------------------------------------------

  /**
   * A delivery that is recorded for an unsent notice counts one attempt and gives the lease back. Delivered, the notice is
   * sent at that time; otherwise it is due again exactly from the next attempt on, and without one not until requeued.
   */
  lemma {:induction false} DeliveryIsRecorded(steps: seq<Step>, id: NoticeId, lease: Option<(string, nat)>, delivery: Delivery,
                                              startedAt: int, completedAt: int)
    requires var db := Run(EMPTY, steps);
      Deliver(db, id, lease, delivery, startedAt, completedAt).Ok? && id in db.notices && db.notices[id].status != Sent
    ensures var db := Run(EMPTY, steps); var next := Deliver(db, id, lease, delivery, startedAt, completedAt).value;
      && id in next.notices && next.notices == db.notices[id := next.notices[id]]
      && next.attempts == db.attempts + {(id, db.notices[id].attempts + 1)}
      && next.notices[id].attempts == db.notices[id].attempts + 1 && next.notices[id].leaseOwner.None?
      && next.notices[id].leaseToken == db.notices[id].leaseToken
      && (match delivery
          case Delivered => next.notices[id].status == Sent && next.notices[id].sentAt == Some(completedAt)
          case Undelivered(again) =>
            && next == db.(notices := next.notices, attempts := next.attempts)
            && forall now :: Claimable(next.notices[id], now) <==> again.Some? && again.value <= now)
      && (forall n | n in db.notices && n != id :: next.notices[n] == db.notices[n])
  {
    AttemptsAreCounted(steps);
    assert Counted(Run(EMPTY, steps), id);
  }

  /** A window can begin on the discrepancy of the notice at that time. */
  predicate WindowCanBegin(db: Db, id: NoticeId, at: int)
    requires id in db.notices && db.notices[id].discrepancyId in db.states && db.notices[id].discrepancyId in db.cases
  {
    var s := db.states[db.notices[id].discrepancyId];
    && s.lifecycle == Open && s.severity != Info && Identifier(NoticeText(id))
    && s.publicationUpdatedAt <= at && db.cases[db.notices[id].discrepancyId].openedAt <= at + REPLY_WINDOW_MS
  }

  lemma {:induction false} BeginsExactly(db: Db, id: NoticeId, at: int)
    requires Inv(db) && id in db.notices && db.notices[id].status != Sent
    requires var d := db.notices[id].discrepancyId; d in db.states && d in db.cases && db.states[d].publication == Internal
    ensures var sent := db.(attempts := db.attempts + {(id, db.notices[id].attempts + 1)},
                            notices := db.notices[id := SentNotice(db.notices[id], at)]);
      BeginWindow(sent, db.notices[id].discrepancyId, id, at).Ok? <==> WindowCanBegin(db, id, at)
  {
    var d := db.notices[id].discrepancyId;
    assert RowSound(db, d);
    forall i | 0 <= i < |db.log| ensures db.log[i].key != BeginReplyKey(d, id) { assert Witnessed(db, db.log[i]); }
    assert Identifier(DIGEST);
  }

  /**
   * The delivery of an unsent notice is recorded exactly when its times are in order, its lease, if one is given, is the
   * current one, and, when it succeeded for an internal discrepancy, the reply window can begin: a discrepancy that was
   * resolved or fell to Info in the meantime makes the record throw, and the notice stays unsent.
   */
  lemma {:induction false} DeliversExactly(steps: seq<Step>, id: NoticeId, lease: Option<(string, nat)>, delivery: Delivery,
                                           startedAt: int, completedAt: int)
    requires id in Run(EMPTY, steps).notices && Run(EMPTY, steps).notices[id].status != Sent
    ensures var db := Run(EMPTY, steps); var n := db.notices[id]; var d := n.discrepancyId;
      && d in db.states && d in db.cases
      && (Deliver(db, id, lease, delivery, startedAt, completedAt).Ok? <==>
            && startedAt <= completedAt
            && (delivery.Undelivered? && delivery.nextAttemptAt.Some? ==> completedAt <= delivery.nextAttemptAt.value)
            && (lease.Some? ==> n.leaseOwner == Some(lease.value.0) && n.leaseToken == lease.value.1)
            && (delivery.Delivered? && db.states[d].publication == Internal ==> WindowCanBegin(db, id, completedAt)))
  {
    var db := Run(EMPTY, steps);
    var d := db.notices[id].discrepancyId;
    ReachableInv(steps);
    AttemptsAreCounted(steps);
    assert Counted(db, id) && RowSound(db, d);
    if db.states[d].publication == Internal { BeginsExactly(db, id, completedAt); }
  }

  /** What was sent is never due, sent or changed again, whatever happens later. */
  lemma {:induction false} SentForever(steps: seq<Step>, more: seq<Step>, id: NoticeId)
    requires id in Run(EMPTY, steps).notices && Run(EMPTY, steps).notices[id].status == Sent
    ensures var db := Run(EMPTY, steps + more);
      && id in db.notices && db.notices[id] == Run(EMPTY, steps).notices[id]
      && forall now :: !Claimable(db.notices[id], now)
  {
    if more == [] {
      assert steps + more == steps;
    } else {
      var all := steps + more;
      assert all[..|all| - 1] == steps + more[..|more| - 1];
      SentForever(steps, more[..|more| - 1], id);
      NoticeStays(all[..|all| - 1], all[|all| - 1], id);
      assert all == all[..|all| - 1] + [all[|all| - 1]];
    }
  }

  lemma {:induction false} NoticeStays(steps: seq<Step>, step: Step, id: NoticeId)
    ensures NoticeMoves(Run(EMPTY, steps), Run(EMPTY, steps + [step]), id)
  {
    AttemptsAreCounted(steps);
    assert (steps + [step])[..|steps|] == steps;
    TakeCounts(Run(EMPTY, steps), step, id);
  }

  /**
   * A notice is requeued exactly by someone authorized, when it failed for good and is not leased. Until then it is never
   * due, afterwards exactly from the given time on.
   */
  lemma {:induction false} RequeuedIsDue(steps: seq<Step>, id: NoticeId, authorized: bool, at: int, now: int)
    ensures var db := Run(EMPTY, steps); var r := Requeue(db, id, authorized, at);
      && (r.Ok? <==>
            && authorized && id in db.notices && db.notices[id].status == Failed && db.notices[id].nextAttemptAt.None?
            && db.notices[id].leaseOwner.None?)
      && (r.Ok? ==>
            && !Claimable(db.notices[id], now)
            && r.value == db.(notices := db.notices[id := db.notices[id].(nextAttemptAt := Some(at))])
            && (Claimable(r.value.notices[id], now) <==> at <= now))
  {
    AttemptsAreCounted(steps);
    ReachableInv(steps);
    assert Counted(Run(EMPTY, steps), id);
  }

  /** A case opens with one notice per contact, each unsent, unleased and due at once. */
  lemma {:induction false} OpeningNotifiesEachContact(db: Db, d: string, trigger: Key, openedAt: int, verified: bool,
                                                      contacts: seq<Contact>, now: int)
    requires OpenCase(db, d, trigger, openedAt, verified, contacts).Ok? && d !in db.cases
    ensures var next := OpenCase(db, d, trigger, openedAt, verified, contacts).value;
      && next == db.(cases := db.cases[d := Case(Draft, openedAt, None)], notices := next.notices)
      && (forall n :: n in next.notices <==> n in db.notices || exists c :: c in contacts && n == InitialNotice(d, c.id))
      && (forall n | n in db.notices :: next.notices[n] == db.notices[n])
      && (forall c | c in contacts ::
            var n := InitialNotice(d, c.id);
            && n !in db.notices && next.notices[n].discrepancyId == d && next.notices[n].key == InitialKey(d, c.id)
            && next.notices[n].attempts == next.notices[n].leaseToken == 0 && next.notices[n].leaseOwner.None?
            && next.notices[n].sentAt.None? && Claimable(next.notices[n], now))
  {
    var next := OpenCase(db, d, trigger, openedAt, verified, contacts).value;
    forall n ensures n in next.notices <==> n in db.notices || exists c :: c in contacts && n == InitialNotice(d, c.id) {
      assert n in InitialNotices(d, contacts) <==> exists c :: c in contacts && n == InitialNotice(d, c.id);
    }
  }

  // ---- Further notices ---------------------------------------------------------------------------

  /** A notice has that idempotency key. */
  ghost predicate HasNoticeKey(db: Db, key: NoticeKey) { exists n :: n in db.notices && db.notices[n].key == key }

  /**
   * A further notice is inserted exactly when its columns pass, its key and identifier are new, and its case and contact
   * exist; under a key in use nothing happens, and anything else throws.
   */
  lemma {:induction false} EnqueuesExactly(db: Db, id: NoticeId, d: string, key: NoticeKey, wellFormed: bool, contactKnown: bool,
                                           again: Option<int>, now: int)
    ensures var r := Enqueue(db, id, d, key, wellFormed, contactKnown, again);
      && (r.Ok? <==> wellFormed && (HasNoticeKey(db, key) || (id !in db.notices && d in db.cases && contactKnown)))
      && (r.Ok? && HasNoticeKey(db, key) ==> r.value == db)
      && (r.Ok? && !HasNoticeKey(db, key) ==>
            && id in r.value.notices && r.value == db.(notices := db.notices[id := r.value.notices[id]])
            && r.value.notices[id].discrepancyId == d && r.value.notices[id].key == key
            && r.value.notices[id].attempts == r.value.notices[id].leaseToken == 0 && r.value.notices[id].leaseOwner.None?
            && r.value.notices[id].sentAt.None? && Claimable(r.value.notices[id], now))
  {
    assert HasNoticeKey(db, key) <==> KeyUsed(db.notices, key);
  }

  ghost predicate KeysUnique(db: Db) {
    forall n, m | n in db.notices && m in db.notices && n != m :: db.notices[n].key != db.notices[m].key
  }

  lemma {:induction false} OpeningKeepsKeys(db: Db, step: Step)
    requires step.OpenCaseStep? && Perform(db, step).Ok? && KeysUnique(db)
    ensures KeysUnique(Perform(db, step).value)
  {
    var next, d := Perform(db, step).value, step.d;
    if next != db {
      forall n, m | n in next.notices && m in next.notices && n != m ensures next.notices[n].key != next.notices[m].key {
        if n in InitialNotices(d, step.contacts) && m !in InitialNotices(d, step.contacts) { InitialIsNew(db, d, step.contacts, n, m); }
        if m in InitialNotices(d, step.contacts) && n !in InitialNotices(d, step.contacts) { InitialIsNew(db, d, step.contacts, m, n); }
      }
    }
  }

  lemma {:induction false} InitialIsNew(db: Db, d: string, contacts: seq<Contact>, n: NoticeId, m: NoticeId)
    requires !NoticesTaken(db.notices, d, contacts) && n in InitialNotices(d, contacts) && m in db.notices
    ensures InitialNotices(d, contacts)[n].key != db.notices[m].key
  {
    var c :| c in contacts && n == InitialNotice(d, c.id);
    assert !KeyUsed(db.notices, InitialKey(d, c.id));
  }

  lemma {:induction false} StepKeepsKeys(db: Db, step: Step)
    requires KeysUnique(db) && forall n :: Counted(db, n)
    ensures KeysUnique(Take(db, step))
  {
    if Perform(db, step).Ok? {
      if step.OpenCaseStep? { OpeningKeepsKeys(db, step); }
      else if !Handles(step) { OthersLeaveNotices(db, step); }
      else if !step.EnqueueStep? { HandlingKeepsKeys(db, step); }
    }
  }

  lemma {:induction false} HandlingKeepsKeys(db: Db, step: Step)
    requires (step.ClaimStep? || step.DeliverStep? || step.RequeueStep?) && Perform(db, step).Ok?
    ensures Perform(db, step).value.notices.Keys == db.notices.Keys
    ensures forall n | n in db.notices :: Perform(db, step).value.notices[n].key == db.notices[n].key
  {}

  /** In every run no two notices share an idempotency key. */
  lemma {:induction false} NoticeKeysAreUnique(steps: seq<Step>)
    ensures KeysUnique(Run(EMPTY, steps))
  {
    if steps != [] {
      NoticeKeysAreUnique(steps[..|steps| - 1]);
      AttemptsAreCounted(steps[..|steps| - 1]);
      StepKeepsKeys(Run(EMPTY, steps[..|steps| - 1]), steps[|steps| - 1]);
    }
  }

  // ---- Leases ------------------------------------------------------------------------------------

  /** The notice waits to be sent, and no lease on it runs at that time. */
  predicate Claimable(n: Notice, now: int) {
    && (n.status == NoticeStatus.Pending || (n.status == Failed && n.nextAttemptAt.Some? && n.nextAttemptAt.value <= now))
    && (n.leaseExpiresAt.Some? ==> n.leaseExpiresAt.value <= now)
  }

  /**
   * A named worker may claim up to a hundred different claimable notices for a positive time. A claim leases exactly the
   * rows it selected, each under a new token, and keeps it from every later claim until the lease runs out.
   */
  lemma {:induction false} ClaimLeases(db: Db, worker: string, now: int, durationMs: int, limit: nat, rows: seq<NoticeId>)
    ensures var r := ClaimNotices(db, worker, now, durationMs, limit, rows);
      && (r.Ok? <==>
            && 1 <= |worker| <= 128 && 0 < durationMs && 1 <= limit <= 100 && |rows| <= limit
            && (forall i, j | 0 <= i < j < |rows| :: rows[i] != rows[j])
            && (forall n | n in rows :: n in db.notices && Claimable(db.notices[n], now)))
      && (r.Ok? ==>
            && r.value == db.(notices := r.value.notices) && r.value.notices.Keys == db.notices.Keys
            && (forall n | n in db.notices && n !in rows :: r.value.notices[n] == db.notices[n])
            && (forall n | n in rows ::
                  && n in db.notices
                  && r.value.notices[n] == db.notices[n].(leaseOwner := Some(worker), leaseToken := db.notices[n].leaseToken + 1,
                                                          leaseExpiresAt := Some(now + durationMs))
                  && forall later :: Claimable(r.value.notices[n], later) ==> now + durationMs <= later))
  {
    assert DueNotices(db, now, limit, rows) <==>
      && |rows| <= limit && (forall i, j | 0 <= i < j < |rows| :: rows[i] != rows[j])
      && (forall n | n in rows :: n in db.notices && Claimable(db.notices[n], now));
  }

  /** Nobody claims before that time, nobody requeues the notice, and no delivery of it is recorded. */
  predicate Undisturbed(steps: seq<Step>, id: NoticeId, until: int) {
    forall step | step in steps ::
      && (step.ClaimStep? ==> step.now < until)
      && (step.DeliverStep? ==> step.notice != id) && (step.RequeueStep? ==> step.notice != id)
  }

  predicate Held(db: Db, id: NoticeId, was: Notice) {
    id in db.notices && db.notices[id] == was && was.leaseExpiresAt.Some?
  }

  lemma {:induction false} TakeHolds(db: Db, step: Step, id: NoticeId, was: Notice)
    requires Held(db, id, was) && Undisturbed([step], id, was.leaseExpiresAt.value)
    ensures Held(Take(db, step), id, was)
  {
    assert step in [step];
    if Perform(db, step).Ok? && !Handles(step) { OthersLeaveNotices(db, step); }
  }

  /** Until its lease runs out or its delivery is recorded, a claimed notice goes to no other worker, in any run. */
  lemma {:induction false} LeaseExcludes(db: Db, steps: seq<Step>, id: NoticeId)
    requires id in db.notices && db.notices[id].leaseExpiresAt.Some?
    requires Undisturbed(steps, id, db.notices[id].leaseExpiresAt.value)
    ensures id in Run(db, steps).notices && Run(db, steps).notices[id] == db.notices[id]
  {
    if steps != [] {
      var prefix, step := steps[..|steps| - 1], steps[|steps| - 1];
      forall s | s in prefix ensures s in steps {}
      LeaseExcludes(db, prefix, id);
      assert step in steps;
      TakeHolds(Run(db, prefix), step, id, db.notices[id]);
    }
  }

  /** Once claimed again a worker's old token records nothing, whatever happens later. */
  lemma {:induction false} StaleTokenRecordsNothing(steps: seq<Step>, more: seq<Step>, id: NoticeId, worker: string, token: nat,
                                                    delivery: Delivery, startedAt: int, completedAt: int)
    requires id in Run(EMPTY, steps).notices && token < Run(EMPTY, steps).notices[id].leaseToken
    ensures var db := Run(EMPTY, steps + more);
      && id in db.notices && token < db.notices[id].leaseToken
      && var r := Deliver(db, id, Some((worker, token)), delivery, startedAt, completedAt);
         r == Ok(db) || r.Err?
  {
    TokensGrow(steps, more, id);
  }

  lemma {:induction false} TokensGrow(steps: seq<Step>, more: seq<Step>, id: NoticeId)
    requires id in Run(EMPTY, steps).notices
    ensures var db := Run(EMPTY, steps + more);
      id in db.notices && Run(EMPTY, steps).notices[id].leaseToken <= db.notices[id].leaseToken
  {
    if more == [] {
      assert steps + more == steps;
    } else {
      var all := steps + more;
      assert all[..|all| - 1] == steps + more[..|more| - 1];
      TokensGrow(steps, more[..|more| - 1], id);
      NoticeStays(all[..|all| - 1], all[|all| - 1], id);
      assert all == all[..|all| - 1] + [all[|all| - 1]];
    }
  }
}
