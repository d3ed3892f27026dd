/** The case repository as the program runs it: tables updated in place, and put back when a transaction throws. */
module CaseRepository {
  import opened Outcomes
  import opened Discrepancy
  import opened ReplyCase

  /** A transaction ends with the tables its specification gives, or throws and leaves them as they were. */
  ghost predicate Commits(before: Db, after: Db, thrown: Option<Failure>, spec: Outcome) {
    match spec
    case Ok(next) => thrown == None && after == next
    case Err(failure) => thrown == Some(failure) && after == before
  }

  class Repository {
    var states: map<string, State>
    var cases: map<string, Case>
    var notices: map<NoticeId, Notice>
    var attempts: set<(NoticeId, nat)>
    var replies: map<string, seq<int>>
    var log: seq<Entry>

    function Contents(): Db
      reads this
    {
      Db(states, cases, notices, attempts, replies, log)
    }

    constructor ()
      ensures Contents() == EMPTY
    {
      states, cases, notices, attempts, replies, log := map[], map[], map[], {}, map[], [];
    }

    method Rollback(saved: Db)
      modifies this
      ensures Contents() == saved
    {
      states, cases, notices := saved.states, saved.cases, saved.notices;
      attempts, replies, log := saved.attempts, saved.replies, saved.log;
    }

    method PublishAction(d: string, key: Key, kind: ActionKind, at: int) returns (thrown: Option<Failure>)
      requires d in states
      modifies this
      ensures Commits(old(Contents()), Contents(), thrown, Publish(old(Contents()), d, key, kind, at))
    {
      var transition := Transition(states[d], Action(DIGEST, at, kind));
      if transition.Err? { return Some(ActionFault(transition.error)); }
      if HasKey(log, key) { return Some(KeyConflict); }
      states := states[d := transition.value.state];
      log := log + [Entry(key, d, at, PublishedBody(kind))];
      thrown := None;
    }

    method OpenEligibleCase(d: string, trigger: Key, openedAt: int, anchorVerified: bool, contacts: seq<Contact>)
      returns (thrown: Option<Failure>)
      modifies this
      ensures Commits(old(Contents()), Contents(), thrown,
                      OpenCase(old(Contents()), d, trigger, openedAt, anchorVerified, contacts))
    {
      if d !in states || !anchorVerified || !EligibleTrigger(log, d, trigger) { return Some(NotEligible); }
      if d in cases { return None; }
      if !Valid(states[d]) || !EligibleState(states[d]) { return Some(NotEligible); }
      if !Nameable(trigger) { return Some(NotEligible); }
      if contacts == [] || !UniqueContacts(contacts) { return Some(NotEligible); }
      if exists c :: c in contacts && (!Identifier(c.id) || c.verifiedAt > openedAt) { return Some(NotEligible); }
      if NoticesTaken(notices, d, contacts) { return Some(KeyConflict); }
      cases := cases[d := Case(Draft, openedAt, None)];
      InsertNotices(d, contacts);
      thrown := None;
    }

    method InsertNotices(d: string, contacts: seq<Contact>)
      modifies this`notices
      ensures notices == old(notices) + InitialNotices(d, contacts)
    {
      var added: map<NoticeId, Notice> := map[];
      for i := 0 to |contacts|
        invariant added == InitialNotices(d, contacts[..i]) && unchanged(this)
      {
        OneMoreNotice(d, contacts, i);
        added := added[InitialNotice(d, contacts[i].id) := FreshNotice(d, InitialKey(d, contacts[i].id), None)];
      }
      assert contacts[..|contacts|] == contacts;
      notices := notices + added;
    }

    method EnqueueNotification(id: NoticeId, d: string, key: NoticeKey, wellFormed: bool, contactKnown: bool,
                               nextAttemptAt: Option<int>) returns (thrown: Option<Failure>)
      modifies this
      ensures Commits(old(Contents()), Contents(), thrown,
                      Enqueue(old(Contents()), id, d, key, wellFormed, contactKnown, nextAttemptAt))
    {
      if !wellFormed { return Some(ConstraintViolated); }
      if KeyUsed(notices, key) { return None; }
      if id in notices { return Some(KeyConflict); }
      if d !in cases || !contactKnown { return Some(ConstraintViolated); }
      notices := notices[id := FreshNotice(d, key, nextAttemptAt)];
      thrown := None;
    }

    method ClaimDueNotifications(worker: string, now: int, durationMs: int, limit: nat, rows: seq<NoticeId>)
      returns (thrown: Option<Failure>)
      modifies this
      ensures Commits(old(Contents()), Contents(), thrown, ClaimNotices(old(Contents()), worker, now, durationMs, limit, rows))
    {
      if worker == "" || |worker| > 128 || durationMs <= 0 || limit == 0 || limit > 100 { return Some(Rejected); }
      if !DueNotices(Contents(), now, limit, rows) { return Some(Rejected); }
      for i := 0 to |rows|
        invariant notices.Keys == old(notices).Keys
        invariant forall n | n in notices ::
                    notices[n] == if n in rows[..i] then ClaimOne(old(notices)[n], worker, now + durationMs) else old(notices)[n]
        invariant unchanged(`states, `cases, `attempts, `replies, `log)
      {
        assert rows[..i + 1] == rows[..i] + [rows[i]];
        assert rows[i] in rows && rows[i] !in rows[..i];
        notices := notices[rows[i] := ClaimOne(notices[rows[i]], worker, now + durationMs)];
      }
      assert rows[..|rows|] == rows;
      thrown := None;
    }

    method RecordDeliveryAttempt(id: NoticeId, lease: Option<(string, nat)>, delivery: Delivery, startedAt: int, completedAt: int)
      returns (thrown: Option<Failure>)
      modifies this
      ensures Commits(old(Contents()), Contents(), thrown,
                      Deliver(old(Contents()), id, lease, delivery, startedAt, completedAt))
    {
      var saved := Contents();
      if !PlausibleDelivery(delivery, startedAt, completedAt) || id !in notices { return Some(Rejected); }
      var n := notices[id];
      var d := n.discrepancyId;
      if d !in cases || d !in states { return Some(Rejected); }
      if n.status == Sent { return None; }
      if lease.Some? && (n.leaseOwner != Some(lease.value.0) || n.leaseToken != lease.value.1) { return Some(LeaseLost); }
      if (id, n.attempts + 1) in attempts { return None; }
      attempts := attempts + {(id, n.attempts + 1)};
      if delivery.Undelivered? {
        notices := notices[id := FailedNotice(n, delivery.nextAttemptAt)];
        return None;
      }
      notices := notices[id := SentNotice(n, completedAt)];
      if !Valid(states[d]) {
        Rollback(saved);
        return Some(ActionFault(InvalidPriorState));
      }
      if states[d].publication != Internal { return None; }
      ghost var sent := Contents();
      thrown := PublishAction(d, BeginReplyKey(d, id), BeginReply(NoticeText(id)), completedAt);
      if thrown.None? && completedAt + REPLY_WINDOW_MS < cases[d].openedAt { thrown := Some(ConstraintViolated); }
      if thrown.Some? {
        Rollback(saved);
      } else {
        cases := cases[d := cases[d].(status := CaseAwaitingReply, replyDueAt := Some(completedAt + REPLY_WINDOW_MS))];
        assert BeginWindow(sent, d, id, completedAt) == Ok(Contents());
      }
    }

    method RequeueFailedNotification(id: NoticeId, authorized: bool, at: int) returns (thrown: Option<Failure>)
      modifies this
      ensures Commits(old(Contents()), Contents(), thrown, Requeue(old(Contents()), id, authorized, at))
    {
      if !authorized { return Some(NotAuthorized); }
      if id !in notices || notices[id].discrepancyId !in cases { return Some(Rejected); }
      var n := notices[id];
      if n.status != Failed || n.nextAttemptAt.Some? || n.leaseOwner.Some? { return Some(Rejected); }
      notices := notices[id := n.(nextAttemptAt := Some(at))];
      thrown := None;
    }

    method SubmitClaimantReply(d: string, authorized: bool, at: int) returns (thrown: Option<Failure>)
      modifies this
      ensures Commits(old(Contents()), Contents(), thrown, SubmitReply(old(Contents()), d, authorized, at))
    {
      var saved := Contents();
      if !authorized || !Reviewable(saved, d) { return Some(NotAuthorized); }
      if cases[d].replyDueAt.None? || cases[d].replyDueAt.value <= at { return Some(WindowClosed); }
      var prior := if d in replies then replies[d] else [];
      replies := replies[d := prior + [at]];
      cases := cases[d := cases[d].(status := UnderReview)];
      thrown := None;
      if states[d].reply == AwaitingReply {
        thrown := PublishAction(d, ResponseKey(d, |prior| + 1, at), RecordResponse, at);
        if thrown.Some? { Rollback(saved); }
      }
    }

    /** One turn of the sweep, after `i` rows of it. */
    method ExpireRow(ghost saved: Db, rows: seq<string>, i: nat, now: int) returns (thrown: Option<Failure>)
      requires i < |rows| && forall d | d in rows :: d in saved.states && d in saved.cases
      requires ExpireRows(saved, rows, i, now) == Ok(Contents())
      modifies this
      ensures match ExpireRows(saved, rows, i + 1, now)
              case Ok(next) => thrown == None && Contents() == next
              case Err(failure) => thrown == Some(failure)
    {
      var d := rows[i];
      assert d in rows && d in states && d in cases;
      thrown := PublishAction(d, ReplyExpiredKey(d), ExpireReplyWindow, now);
      if thrown.None? { cases := cases[d := cases[d].(status := UnderReview)]; }
    }

    method ExpireDueReplyWindows(now: int, limit: nat, rows: seq<string>) returns (thrown: Option<Failure>)
      modifies this
      ensures Commits(old(Contents()), Contents(), thrown, ExpireWindows(old(Contents()), now, limit, rows))
    {
      var saved := Contents();
      if limit == 0 || limit > 100 || !DueWindows(saved, now, limit, rows) { return Some(Rejected); }
      for i := 0 to |rows|
        invariant ExpireRows(saved, rows, i, now) == Ok(Contents())
      {
        thrown := ExpireRow(saved, rows, i, now);
        if thrown.Some? {
          ExpiryFails(saved, rows, i + 1, now);
          Rollback(saved);
          return;
        }
      }
      thrown := None;
    }

    method CorrectFlag(d: string, authorized: bool, target: Key, retract: bool, at: int) returns (thrown: Option<Failure>)
      modifies this
      ensures Commits(old(Contents()), Contents(), thrown, Correct(old(Contents()), d, authorized, target, retract, at))
    {
      if !authorized { return Some(NotAuthorized); }
      if d !in cases || d !in states { return Some(Rejected); }
      if !Nameable(target) { return Some(Rejected); }
      if !Valid(states[d]) || !AmendmentTarget(Contents(), d, target, at) { return Some(Rejected); }
      var entry := Entry(AmendmentKey(d, retract, at), d, at, AmendedBody(retract, target));
      if HasKey(log, entry.key) || TargetTaken(log, entry) { return Some(KeyConflict); }
      log := log + [entry];
      if retract && states[d].publication == ApprovedPublic {
        states := states[d := states[d].(publication := Withheld, publicationUpdatedAt := at)];
      }
      thrown := None;
    }

    method AppendDiscrepancyAmendment(text: string, d: string, target: Key, retract: bool, sameIdentity: bool, at: int)
      returns (thrown: Option<Failure>)
      modifies this
      ensures Commits(old(Contents()), Contents(), thrown, Amend(old(Contents()), text, d, target, retract, sameIdentity, at))
    {
      if d !in states || !sameIdentity || !EarlierEntry(Contents(), d, target, at) { return Some(Rejected); }
      var entry := Entry(TextKey(text), d, at, AmendedBody(retract, target));
      if HasKey(log, entry.key) || TargetTaken(log, entry) { return Some(KeyConflict); }
      log := log + [entry];
      thrown := None;
    }

    method ReviewAnchorCase(d: string, authorized: bool, decision: Decision, allowNamedParty: bool, at: int)
      returns (thrown: Option<Failure>)
      modifies this
      ensures Commits(old(Contents()), Contents(), thrown, Review(old(Contents()), d, authorized, decision, allowNamedParty, at))
    {
      var saved := Contents();
      if decision == ApprovePublic && !allowNamedParty { return Some(PublicationDisabled); }
      if !authorized { return Some(NotAuthorized); }
      if !Reviewable(saved, d) { return Some(Rejected); }
      if states[d].reply == ResponseReceived {
        thrown := PublishAction(d, ReviewResponseKey(d, at), ReviewResponse(DIGEST), at);
        if thrown.Some? { return; }
      }
      if decision == ApprovePublic {
        thrown := PublishAction(d, ApproveKey(d, at), Approve(DIGEST), at);
      } else {
        thrown := PublishAction(d, WithholdKey(d, at), Withhold(DIGEST), at);
      }
      if thrown.Some? {
        Rollback(saved);
      } else {
        cases := cases[d := cases[d].(status := CaseResolved)];
      }
    }
  }

  lemma {:induction false} OneMoreNotice(d: string, contacts: seq<Contact>, i: nat)
    requires i < |contacts|
    ensures InitialNotices(d, contacts[..i + 1])
      == InitialNotices(d, contacts[..i])[InitialNotice(d, contacts[i].id) :=
                                          FreshNotice(d, InitialKey(d, contacts[i].id), None)]
  {
    assert contacts[..i + 1] == contacts[..i] + [contacts[i]];
  }

  /** A row that fails makes the rest of the sweep fail with it. */
  lemma {:induction false} ExpiryFails(db: Db, rows: seq<string>, n: nat, now: int)
    requires n <= |rows| && forall d | d in rows :: d in db.states && d in db.cases
    requires ExpireRows(db, rows, n, now).Err?
    ensures ExpireRows(db, rows, |rows|, now) == ExpireRows(db, rows, n, now)
    decreases |rows| - n
  {
    if n < |rows| {
      assert ExpireRows(db, rows, n + 1, now) == ExpireRows(db, rows, n, now);
      ExpiryFails(db, rows, n + 1, now);
    }
  }
}
