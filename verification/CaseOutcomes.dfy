/** What reviews, replies, sweeps and corrections leave behind, when they succeed, and that a case follows its log. */
module CaseOutcomes {
  import opened Outcomes
  import opened Discrepancy
  import opened DiscrepancyLaws
  import opened ReplyCase
  import opened RightOfReply
  import opened ReplyTheorems
  import opened ReplyOutcomes

  /** A case that was notified and is not resolved. */
  predicate InProgress(db: Db, d: string) {
    && d in db.cases && d in db.states
    && (db.cases[d].status == CaseAwaitingReply || db.cases[d].status == UnderReview)
  }

  // ---- Reviews -----------------------------------------------------------------------------------

  predicate KeysFree(db: Db, d: string, decision: Decision, at: int)
    requires d in db.states
  {
    && !HasKey(db.log, if decision == ApprovePublic then ApproveKey(d, at) else WithholdKey(d, at))
    && (db.states[d].reply == ResponseReceived ==> !HasKey(db.log, ReviewResponseKey(d, at)))
  }

  /** What the decision demands of the flag: heard, to approve it; raised and not withheld, to withhold it. */
  predicate Decidable(s: State, decision: Decision) {
    match decision
    case ApprovePublic => s.publication == PendingReply && s.reply in {ResponseReceived, ResponseReviewed, WindowExpired}
    case WithholdFlag =>
      s.severity != Info && s.publication != Withheld && (s.reply == ResponseReceived ==> s.publication == PendingReply)
  }

  /** The flag after the decision, a pending response reviewed with it. */
  function Decided(s: State, decision: Decision, at: int): State {
    s.(publication := if decision == ApprovePublic then ApprovedPublic else Withheld,
       reply := if s.reply == ResponseReceived then ResponseReviewed else s.reply, publicationUpdatedAt := at)
  }

  lemma {:induction false} DecisionTransits(s: State, decision: Decision, at: int)
    requires Valid(s) && s.namedParty && s.reply != ResponseReceived
    ensures var kind := if decision == ApprovePublic then Approve(DIGEST) else Withhold(DIGEST);
      var r := Transition(s, Action(DIGEST, at, kind));
      (r.Ok? <==> Decidable(s, decision) && s.publicationUpdatedAt <= at) && (r.Ok? ==> r.value.state == Decided(s, decision, at))
  {
    assert Identifier(DIGEST);
  }

  lemma {:induction false} ReviewTransits(s: State, at: int)
    requires Valid(s) && s.reply == ResponseReceived
    ensures var r := Transition(s, Action(DIGEST, at, ReviewResponse(DIGEST)));
      (r.Ok? <==> s.publication == PendingReply && s.publicationUpdatedAt <= at)
      && (r.Ok? ==> r.value.state == s.(reply := ResponseReviewed, publicationUpdatedAt := at))
  {
    assert Identifier(DIGEST);
  }

  lemma {:induction false} DecideExactly(db: Db, d: string, decision: Decision, at: int)
    requires d in db.states && Valid(db.states[d]) && db.states[d].namedParty && db.states[d].reply != ResponseReceived
    ensures var r := Decide(db, d, decision, at);
      var key := if decision == ApprovePublic then ApproveKey(d, at) else WithholdKey(d, at);
      && (r.Ok? <==> Decidable(db.states[d], decision) && db.states[d].publicationUpdatedAt <= at && !HasKey(db.log, key))
      && (r.Ok? ==>
            && r.value.states == db.states[d := Decided(db.states[d], decision, at)]
            && r.value == db.(states := r.value.states, log := r.value.log))
  {
    DecisionTransits(db.states[d], decision, at);
  }

  /**
   * A review succeeds exactly when an authorized reviewer decides, in time and under new keys, what the case allows, and an
   * approval only while publication of named parties is allowed. It leaves the flag public or withheld as decided, the case
   * resolved, and every other table and row as it was.
   */
  lemma {:induction false} ReviewDecides(db: Db, d: string, authorized: bool, decision: Decision, allow: bool, at: int)
    requires Inv(db)
    ensures var r := Review(db, d, authorized, decision, allow, at);
      && (r.Ok? <==>
            && authorized && (decision == ApprovePublic ==> allow) && InProgress(db, d)
            && Decidable(db.states[d], decision) && db.states[d].publicationUpdatedAt <= at && KeysFree(db, d, decision, at))
      && (r.Ok? ==>
            && r.value.states == db.states[d := Decided(db.states[d], decision, at)]
            && r.value.cases == db.cases[d := db.cases[d].(status := CaseResolved)]
            && r.value == db.(states := r.value.states, cases := r.value.cases, log := r.value.log))
  {
    assert RowSound(db, d);
    if Reviewable(db, d) {
      var s := db.states[d];
      if s.reply == ResponseReceived {
        ReviewTransits(s, at);
        var mid := Publish(db, d, ReviewResponseKey(d, at), ReviewResponse(DIGEST), at);
        if mid.Ok? { AfterReview(db, mid.value, d, decision, at); }
      } else {
        DecideExactly(db, d, decision, at);
      }
    }
  }

  lemma {:induction false} AfterReview(db: Db, mid: Db, d: string, decision: Decision, at: int)
    requires Inv(db) && Reviewable(db, d) && db.states[d].reply == ResponseReceived
    requires Publish(db, d, ReviewResponseKey(d, at), ReviewResponse(DIGEST), at) == Ok(mid)
    ensures var r := Decide(mid, d, decision, at);
      && (r.Ok? <==> Decidable(db.states[d], decision) && db.states[d].publicationUpdatedAt <= at && KeysFree(db, d, decision, at))
      && (r.Ok? ==>
            && r.value.states == db.states[d := Decided(db.states[d], decision, at)]
            && r.value == db.(states := r.value.states, log := r.value.log))
  {
    assert RowSound(db, d);
    ReviewTransits(db.states[d], at);
    PublishShape(db, d, ReviewResponseKey(d, at), ReviewResponse(DIGEST), at);
    DecideExactly(mid, d, decision, at);
    var key := if decision == ApprovePublic then ApproveKey(d, at) else WithholdKey(d, at);
    assert HasKey(mid.log, key) <==> HasKey(db.log, key) by {
      assert mid.log[..|db.log|] == db.log && mid.log[|db.log|].key != key;
      if i :| 0 <= i < |db.log| && db.log[i].key == key { assert mid.log[i].key == key; }
      if i :| 0 <= i < |mid.log| && mid.log[i].key == key { assert db.log[i].key == key; }
    }
  }

  // ---- Replies and the sweep ---------------------------------------------------------------------

  /** Replies are stored under their versions, so the key of the next response is new. */
  lemma {:induction false} NextResponseIsNew(db: Db, d: string, at: int)
    requires Inv(db)
    ensures !HasKey(db.log, ResponseKey(d, (if d in db.replies then |db.replies[d]| else 0) + 1, at))
  {
    forall i | 0 <= i < |db.log| ensures db.log[i].key != ResponseKey(d, (if d in db.replies then |db.replies[d]| else 0) + 1, at) {
      assert Witnessed(db, db.log[i]);
    }
  }

  lemma {:induction false} ResponseTransits(s: State, at: int)
    requires Valid(s) && Awaiting(s)
    ensures var r := Transition(s, Action(DIGEST, at, RecordResponse));
      (r.Ok? <==> s.publicationUpdatedAt <= at) && (r.Ok? ==> r.value.state == s.(reply := ResponseReceived, publicationUpdatedAt := at))
  {
    assert Identifier(DIGEST);
  }

  /**
   * While a reply is awaited, a claimant may reply from the notice on until 72 hours later, and from then on exactly the
   * sweep may close the window: at no time both.
   */
  lemma {:induction false} ReplyOrExpiry(steps: seq<Step>, d: string, at: int)
    requires d in Run(EMPTY, steps).states && Awaiting(Run(EMPTY, steps).states[d])
    ensures var db := Run(EMPTY, steps); var since := db.states[d].publicationUpdatedAt;
      && (SubmitReply(db, d, true, at).Ok? <==> since <= at < since + REPLY_WINDOW_MS)
      && (WindowDue(db, d, at) <==> since + REPLY_WINDOW_MS <= at)
  {
    var db := Run(EMPTY, steps);
    ReachableInv(steps);
    assert RowSound(db, d);
    NextResponseIsNew(db, d, at);
    ResponseTransits(db.states[d], at);
  }

  /** In every run the sweep's query selects a window exactly when its reply is awaited and 72 hours have passed. */
  lemma {:induction false} WindowDueExactly(steps: seq<Step>, d: string, now: int)
    ensures var db := Run(EMPTY, steps);
      WindowDue(db, d, now) <==> d in db.states && Awaiting(db.states[d]) && db.states[d].publicationUpdatedAt + REPLY_WINDOW_MS <= now
  {
    ReachableInv(steps);
    assert RowSound(Run(EMPTY, steps), d);
  }

  /**
   * In every run a sweep succeeds exactly for up to a limit of a hundred different rows whose reply has been awaited for 72
   * hours and of which none was ever expired before.
   */
  lemma {:induction false} SweepExactly(steps: seq<Step>, now: int, limit: nat, rows: seq<string>)
    ensures var db := Run(EMPTY, steps);
      ExpireWindows(db, now, limit, rows).Ok? <==>
        && 1 <= limit <= 100 && |rows| <= limit && (forall i, j | 0 <= i < j < |rows| :: rows[i] != rows[j])
        && (forall d | d in rows ::
              d in db.states && Awaiting(db.states[d]) && db.states[d].publicationUpdatedAt + REPLY_WINDOW_MS <= now)
        && (forall i | 0 <= i < |rows| :: !HasKey(db.log, ReplyExpiredKey(rows[i])))
  {
    var db := Run(EMPTY, steps);
    forall d | d in rows
      ensures WindowDue(db, d, now) <==>
        d in db.states && Awaiting(db.states[d]) && db.states[d].publicationUpdatedAt + REPLY_WINDOW_MS <= now
    {
      WindowDueExactly(steps, d, now);
    }
    if 1 <= limit <= 100 && DueWindows(db, now, limit, rows) {
      ExpirySweepExactly(steps, now, limit, rows);
      assert NoneExpired(db.log, rows, |rows|) <==> forall i | 0 <= i < |rows| :: !HasKey(db.log, ReplyExpiredKey(rows[i]));
    }
  }

  /** The transaction that logged a response found a window open for it. */
  lemma {:induction false} ResponseFits(db: Db, step: Step, d: string) returns (i: nat)
    requires Inv(db) && step.ReplyStep? && step == ReplyStep(d, true, step.at) && Perform(db, step).Ok? && Perform(db, step).value.log != db.log
    ensures |Perform(db, step).value.log| == |db.log| + 1
    ensures i < |db.log| && IsNotice(db.log[i], d) && NoResetAfter(db.log, d, i)
    ensures db.log[i].at <= step.at < db.log[i].at + REPLY_WINDOW_MS
  {
    assert RowSound(db, d);
    ResponseTransits(db.states[d], step.at);
    ChainMeaning(db.log, d);
    i := ChainOf(db.log, d).i;
  }

  /** In every run each logged response came after a notice, within 72 hours and with no reset between. */
  lemma {:induction false} ResponsesAreInTime(steps: seq<Step>, k: nat) returns (i: nat)
    requires k < |Run(EMPTY, steps).log|
    requires IsResponse(Run(EMPTY, steps).log[k], Run(EMPTY, steps).log[k].discrepancyId)
    ensures var log := Run(EMPTY, steps).log; var d := log[k].discrepancyId;
      && i < k && IsNotice(log[i], d) && (forall m | i < m < k :: !IsReset(log[m], d))
      && log[i].at <= log[k].at < log[i].at + REPLY_WINDOW_MS
  {
    var log := Run(EMPTY, steps).log;
    var j := EveryEntryWasWritten(steps, k);
    var db := Run(EMPTY, steps[..j]);
    ReachableInv(steps[..j]);
    assert steps[..j + 1][..j] == steps[..j];
    i := ResponseFits(db, steps[j], log[k].discrepancyId);
    assert k == |db.log| && db.log == log[..k];
  }

  /**
   * A reply succeeds exactly for an authorized claimant of a case in progress, before its deadline, and, when it answers the
   * notice, not before that. It is stored, puts the case under review, and answers a notice that still waits for a reply.
   */
  lemma {:induction false} ReplyIsStored(db: Db, d: string, authorized: bool, at: int)
    requires Inv(db)
    ensures var r := SubmitReply(db, d, authorized, at);
      && (r.Ok? <==>
            && authorized && InProgress(db, d) && db.cases[d].replyDueAt.Some? && at < db.cases[d].replyDueAt.value
            && (db.states[d].reply == AwaitingReply ==>
                  db.states[d].publication == PendingReply && db.states[d].publicationUpdatedAt <= at))
      && (r.Ok? ==>
            var s := db.states[d];
            && r.value.replies == db.replies[d := (if d in db.replies then db.replies[d] else []) + [at]]
            && r.value.cases == db.cases[d := db.cases[d].(status := UnderReview)]
            && r.value.states == db.states[d := if s.reply == AwaitingReply then s.(reply := ResponseReceived, publicationUpdatedAt := at) else s]
            && r.value.notices == db.notices && r.value.attempts == db.attempts
            && (s.reply != AwaitingReply ==> r.value.log == db.log))
  {
    assert RowSound(db, d);
    if InProgress(db, d) && db.states[d].reply == AwaitingReply {
      NextResponseIsNew(db, d, at);
      AnswerTransits(db.states[d], at);
    }
  }

  lemma {:induction false} AnswerTransits(s: State, at: int)
    requires Valid(s) && s.reply == AwaitingReply
    ensures var r := Transition(s, Action(DIGEST, at, RecordResponse));
      && (r.Ok? <==> s.publication == PendingReply && s.publicationUpdatedAt <= at)
      && (r.Ok? ==> r.value.state == s.(reply := ResponseReceived, publicationUpdatedAt := at))
  {
    assert Identifier(DIGEST);
  }

  lemma {:induction false} ExpiryTransits(s: State, at: int)
    requires Valid(s) && Awaiting(s) && s.publicationUpdatedAt + REPLY_WINDOW_MS <= at
    ensures Transition(s, Action(DIGEST, at, ExpireReplyWindow)).Ok?
    ensures Transition(s, Action(DIGEST, at, ExpireReplyWindow)).value.state == s.(reply := WindowExpired, publicationUpdatedAt := at)
  {
    assert Identifier(DIGEST);
  }

  /** The window is due, and the transition will find it so. */
  predicate Closable(db: Db, d: string, now: int) {
    WindowDue(db, d, now) && Valid(db.states[d]) && db.states[d].publicationUpdatedAt + REPLY_WINDOW_MS <= now
  }

  /** The row and the case of a discrepancy after a sweep of `rows`. */
  predicate Swept(db: Db, next: Db, rows: seq<string>, now: int, d: string) {
    && (d in db.states ==>
          d in next.states
          && next.states[d] == if d in rows then db.states[d].(reply := WindowExpired, publicationUpdatedAt := now) else db.states[d])
    && (d in db.cases ==>
          d in next.cases && next.cases[d] == if d in rows then db.cases[d].(status := UnderReview) else db.cases[d])
  }

  lemma {:induction false} OneSwept(db: Db, mid: Db, next: Db, rows: seq<string>, last: string, now: int, d: string)
    requires Swept(db, mid, rows, now, d) && Swept(db, mid, rows, now, last) && last !in rows && Closable(db, last, now)
    requires last in mid.states && last in mid.cases && ExpireOne(mid, last, now) == Ok(next)
    ensures Swept(db, next, rows + [last], now, d)
  {
    ExpiryTransits(db.states[last], now);
  }

  lemma {:induction false} NextSwept(db: Db, mid: Db, next: Db, rows: seq<string>, n: nat, now: int, d: string)
    requires n < |rows| && (forall i | 0 <= i < n :: rows[i] != rows[n]) && Closable(db, rows[n], now)
    requires Swept(db, mid, rows[..n], now, d) && Swept(db, mid, rows[..n], now, rows[n])
    requires rows[n] in mid.states && rows[n] in mid.cases && ExpireOne(mid, rows[n], now) == Ok(next)
    ensures Swept(db, next, rows[..n + 1], now, d)
  {
    OneSwept(db, mid, next, rows[..n], rows[n], now, d);
    assert rows[..n + 1] == rows[..n] + [rows[n]];
  }

  /** The rows the sweep may select, as the tables show them. */
  ghost predicate Selectable(db: Db, rows: seq<string>, now: int) {
    && (forall i, j | 0 <= i < j < |rows| :: rows[i] != rows[j])
    && (forall x | x in rows :: Closable(db, x, now))
  }

  ghost predicate AllSwept(db: Db, next: Db, rows: seq<string>, n: nat, now: int)
    requires n <= |rows|
  {
    forall d :: Swept(db, next, rows[..n], now, d)
  }

  lemma {:induction false} RowsSwept(db: Db, rows: seq<string>, n: nat, now: int)
    requires n <= |rows| && (forall x | x in rows :: x in db.states && x in db.cases)
    requires Selectable(db, rows, now) && ExpireRows(db, rows, n, now).Ok?
    ensures AllSwept(db, ExpireRows(db, rows, n, now).value, rows, n, now)
  {
    if n > 0 {
      RowsSwept(db, rows, n - 1, now);
      AllSweptByNext(db, ExpireRows(db, rows, n - 1, now).value, rows, n - 1, now);
    }
  }

  lemma {:induction false} AllSweptByNext(db: Db, mid: Db, rows: seq<string>, n: nat, now: int)
    requires n < |rows| && Selectable(db, rows, now) && rows[n] in mid.states && rows[n] in mid.cases
    requires AllSwept(db, mid, rows, n, now)
    ensures ExpireOne(mid, rows[n], now).Ok? ==> AllSwept(db, ExpireOne(mid, rows[n], now).value, rows, n + 1, now)
  {
    if ExpireOne(mid, rows[n], now).Ok? {
      var next, swept := ExpireOne(mid, rows[n], now).value, rows[..n + 1];
      forall d ensures Swept(db, next, swept, now, d) { SweptByNext(db, mid, rows, n, now, d); }
    }
  }

  lemma {:induction false} SweptByNext(db: Db, mid: Db, rows: seq<string>, n: nat, now: int, d: string)
    requires n < |rows| && Selectable(db, rows, now) && rows[n] in mid.states && rows[n] in mid.cases
    requires Swept(db, mid, rows[..n], now, d) && Swept(db, mid, rows[..n], now, rows[n])
    ensures ExpireOne(mid, rows[n], now).Ok? ==> Swept(db, ExpireOne(mid, rows[n], now).value, rows[..n + 1], now, d)
  {
    assert rows[n] in rows;
    if ExpireOne(mid, rows[n], now).Ok? { NextSwept(db, mid, ExpireOne(mid, rows[n], now).value, rows, n, now, d); }
  }

  /** A sweep marks exactly its rows as expired and puts their cases under review. */
  lemma {:induction false} SweepCloses(db: Db, now: int, limit: nat, rows: seq<string>, d: string)
    requires Inv(db) && ExpireWindows(db, now, limit, rows).Ok?
    ensures Swept(db, ExpireWindows(db, now, limit, rows).value, rows, now, d)
  {
    assert rows[..|rows|] == rows;
    forall x | x in rows ensures Closable(db, x, now) { assert RowSound(db, x); }
    RowsSwept(db, rows, |rows|, now);
  }

  // ---- Corrections -------------------------------------------------------------------------------

  /** The event may be amended: a measurement of the discrepancy, under its present methodology, not later than the amendment. */
  ghost predicate Amendable(db: Db, d: string, target: Key, at: int) {
    && target.TextKey? && Identifier(target.text) && d in db.states
    && exists i :: 0 <= i < |db.log| && db.log[i].key == target && db.log[i].discrepancyId == d && db.log[i].body.MeasuredBody?
                   && db.log[i].body.event.version == db.states[d].version && db.log[i].at <= at
  }

  /** The event was amended that way before. */
  ghost predicate Amended(log: seq<Entry>, target: Key, retract: bool) {
    exists i :: 0 <= i < |log| && log[i].body == AmendedBody(retract, target)
  }

  /**
   * A correction succeeds exactly when it is authorized, the discrepancy has a case, its target may be amended and was not
   * amended that way before, and its key is new. A correction leaves publication alone, a retraction takes a public flag
   * back; both leave their entry behind.
   */
  lemma {:induction false} CorrectionWithdraws(db: Db, d: string, authorized: bool, target: Key, retract: bool, at: int)
    requires Inv(db)
    ensures var r := Correct(db, d, authorized, target, retract, at);
      && (r.Ok? <==>
            && authorized && d in db.cases && Amendable(db, d, target, at) && !Amended(db.log, target, retract)
            && !HasKey(db.log, AmendmentKey(d, retract, at)))
      && (r.Ok? ==>
            && r.value.states == db.states[d := if retract && db.states[d].publication == ApprovedPublic
                                                then db.states[d].(publication := Withheld, publicationUpdatedAt := at)
                                                else db.states[d]]
            && r.value.log == db.log + [Entry(AmendmentKey(d, retract, at), d, at, AmendedBody(retract, target))]
            && r.value == db.(states := r.value.states, log := r.value.log))
  {
    assert RowSound(db, d);
  }

  /** Another writer may amend any earlier entry of the discrepancy, once each way, and touches nothing but the log. */
  lemma {:induction false} AmendmentsAreOnce(db: Db, text: string, d: string, target: Key, retract: bool, sameIdentity: bool, at: int)
    ensures var r := Amend(db, text, d, target, retract, sameIdentity, at);
      && (r.Ok? <==>
            && d in db.states && sameIdentity && !Amended(db.log, target, retract) && !HasKey(db.log, TextKey(text))
            && exists i :: 0 <= i < |db.log| && db.log[i].key == target && db.log[i].discrepancyId == d && db.log[i].at <= at)
      && (r.Ok? ==> r.value == db.(log := db.log + [Entry(TextKey(text), d, at, AmendedBody(retract, target))]))
  {}

  // ---- Measurements ------------------------------------------------------------------------------

  ghost predicate ClosedBefore(log: seq<Entry>, d: string) {
    exists i :: 0 <= i < |log| && log[i].discrepancyId == d && log[i].body.MeasuredBody? && log[i].body.event.kind == ResolvedEvent
  }

  /** The events of a measurement find their keys free, and a closing one its discrepancy not closed before. */
  ghost predicate Loggable(log: seq<Entry>, events: seq<MeasurementEvent>, d: string) {
    forall e | e in events :: !HasKey(log, TextKey(e.id)) && (e.kind == ResolvedEvent ==> !ClosedBefore(log, d))
  }

  /** How the events of one measurement look: one that does not close, or a return and the closing event behind it. */
  predicate OneOrClosing(events: seq<MeasurementEvent>, d: string) {
    && (forall e | e in events :: e.discrepancyId == d)
    && (|events| == 1 ==> events[0].kind != ResolvedEvent && events == [events[0]])
    && (|events| == 2 ==>
          events[0].kind == Reconverged && events[1].kind == ResolvedEvent && events[0].id != events[1].id
          && events == [events[0], events[1]])
    && |events| <= 2
  }

  lemma {:induction false} EventsLogged(db: Db, events: seq<MeasurementEvent>, d: string)
    requires OneOrClosing(events, d)
    ensures LogEvents(db, events).Ok? <==> Loggable(db.log, events, d)
  {
    if |events| == 1 {
      assert events[..0] == [];
      assert events[0] in events;
    } else if |events| == 2 {
      var first, second := events[0], events[1];
      assert events[..1] == [first] && [first][..0] == [];
      assert first in events && second in events;
      assert LogEvents(db, [first]) == Append(db, MeasurementEntry(first));
      if LogEvents(db, [first]).Ok? { SecondLogged(db, first, second, d); }
    }
  }

  lemma {:induction false} SecondLogged(db: Db, first: MeasurementEvent, second: MeasurementEvent, d: string)
    requires first.kind == Reconverged && second.kind == ResolvedEvent && first.id != second.id && second.discrepancyId == d
    ensures var mid := db.(log := db.log + [MeasurementEntry(first)]);
      Append(mid, MeasurementEntry(second)).Ok? <==> !HasKey(db.log, TextKey(second.id)) && !ClosedBefore(db.log, d)
  {
    var more := db.log + [MeasurementEntry(first)];
    assert forall i | 0 <= i < |db.log| :: more[i] == db.log[i];
    assert HasKey(more, TextKey(second.id)) <==> HasKey(db.log, TextKey(second.id));
    assert ClosedBefore(more, d) <==> ClosedBefore(db.log, d);
  }

  lemma {:induction false} AdvanceShape(prior: Option<State>, d: string, sourceId: string, namedParty: bool, version: string, cycle: Cycle)
    requires Advance(prior, d, sourceId, namedParty, version, cycle).Ok?
    ensures OneOrClosing(Advance(prior, d, sourceId, namedParty, version, cycle).value.events, d)
  {
    var a := Advance(prior, d, sourceId, namedParty, version, cycle).value;
    if |a.events| == 2 {
      EventIdsByKind(d, cycle.id);
    }
  }

  lemma {:induction false} EventIdsByKind(d: string, cycleId: string)
    ensures EventId(d, cycleId, Reconverged) != EventId(d, cycleId, ResolvedEvent)
  {
    if EventId(d, cycleId, Reconverged) == EventId(d, cycleId, ResolvedEvent) {
      EventIdInjective(d, cycleId, Reconverged, d, cycleId, ResolvedEvent);
    }
  }

  /**
   * A measurement is stored exactly when the machine accepts it, it does not change the methodology of the stored row, its
   * events have new keys, and it does not close a discrepancy that was closed before; an ignored one changes nothing.
   */
  lemma {:induction false} MeasuresExactly(db: Db, d: string, sourceId: string, namedParty: bool, version: string, cycle: Cycle)
    ensures var r := Measure(db, d, sourceId, namedParty, version, cycle);
      var prior := if d in db.states then Some(db.states[d]) else None;
      var answer := Advance(prior, d, sourceId, namedParty, version, cycle);
      && (answer.Err? ==> r == Err(ActionFault(answer.error)))
      && (answer.Ok? && (answer.value.ignored.Some? || answer.value.state.None?) ==> r == Ok(db))
      && (answer.Ok? && answer.value.ignored.None? && answer.value.state.Some? ==>
            && (r.Ok? <==> (prior.Some? ==> prior.value.version == answer.value.state.value.version)
                           && Loggable(db.log, answer.value.events, d))
            && (r.Ok? ==>
                  && r.value == db.(states := r.value.states, log := r.value.log)
                  && r.value.states == db.states[d := answer.value.state.value.(firstObservedAt :=
                                                   if prior.Some? then prior.value.firstObservedAt
                                                   else answer.value.state.value.firstObservedAt)]))
  {
    var prior := if d in db.states then Some(db.states[d]) else None;
    var answer := Advance(prior, d, sourceId, namedParty, version, cycle);
    if answer.Ok? && answer.value.ignored.None? && answer.value.state.Some? {
      AdvanceShape(prior, d, sourceId, namedParty, version, cycle);
      var row := if prior.Some? then answer.value.state.value.(firstObservedAt := prior.value.firstObservedAt) else answer.value.state.value;
      EventsLogged(db.(states := db.states[d := row]), answer.value.events, d);
      AdvanceIsLater(prior, d, sourceId, namedParty, version, cycle);
      if LogEvents(db.(states := db.states[d := row]), answer.value.events).Ok? {
        EventsStage(db.(states := db.states[d := row]), answer.value.events, d);
      }
    }
  }

  lemma {:induction false} AdvanceIsLater(prior: Option<State>, d: string, sourceId: string, namedParty: bool, version: string, cycle: Cycle)
    requires Advance(prior, d, sourceId, namedParty, version, cycle).Ok?
    ensures var a := Advance(prior, d, sourceId, namedParty, version, cycle).value;
      a.ignored.None? && a.state.Some? && prior.Some? ==> prior.value.lastFinalizedAt < a.state.value.lastFinalizedAt
  {}

  // ---- The case follows its log ------------------------------------------------------------------

  /** How far the entries of the discrepancy have brought its case. */
  function StageOf(log: seq<Entry>, d: string): CaseStatus {
    if log == [] then Draft
    else
      var e := log[|log| - 1];
      if !ActionOn(e, d) then StageOf(log[..|log| - 1], d)
      else
        match e.body.kind
        case BeginReply(_) => CaseAwaitingReply
        case RecordResponse => UnderReview
        case ExpireReplyWindow => UnderReview
        case ReviewResponse(_) => StageOf(log[..|log| - 1], d)
        case Approve(_) => CaseResolved
        case Withhold(_) => CaseResolved
  }

  /** A case stands where its log says, or under review when a reply came in while its flag did not wait for one. */
  ghost predicate Follows(db: Db, d: string) {
    && (d in db.cases ==>
          || db.cases[d].status == StageOf(db.log, d)
          || (StageOf(db.log, d) == CaseAwaitingReply && db.cases[d].status == UnderReview && d in db.replies && db.replies[d] != []))
    && (d !in db.cases ==> StageOf(db.log, d) == Draft)
  }

  lemma {:induction false} StageMore(log: seq<Entry>, e: Entry, d: string)
    ensures (log + [e])[..|log|] == log && (log + [e])[|log|] == e
    ensures !ActionOn(e, d) ==> StageOf(log + [e], d) == StageOf(log, d)
  {}

  lemma {:induction false} QueueFollows(db: Db, step: Step, d: string)
    requires step.OpenCaseStep? || step.EnqueueStep? || step.ClaimStep? || step.RequeueStep?
    requires Perform(db, step).Ok? && Follows(db, d)
    ensures Follows(Perform(db, step).value, d)
  {}

  lemma {:induction false} EntryFollows(db: Db, next: Db, e: Entry, d: string)
    requires Follows(db, d) && !ActionOn(e, d)
    requires next.log == db.log + [e] && next.cases == db.cases && next.replies == db.replies
    ensures Follows(next, d)
  {
    StageMore(db.log, e, d);
  }

  lemma {:induction false} CorrectionFollows(db: Db, step: Step, d: string)
    requires step.CorrectStep? && Perform(db, step).Ok? && Follows(db, d)
    ensures Follows(Perform(db, step).value, d)
  {
    EntryFollows(db, Perform(db, step).value,
                 Entry(AmendmentKey(step.d, step.retract, step.at), step.d, step.at, AmendedBody(step.retract, step.target)), d);
  }

  lemma {:induction false} AmendmentFollows(db: Db, step: Step, d: string)
    requires step.AmendStep? && Perform(db, step).Ok? && Follows(db, d)
    ensures Follows(Perform(db, step).value, d)
  {
    EntryFollows(db, Perform(db, step).value,
                 Entry(TextKey(step.text), step.d, step.at, AmendedBody(step.retract, step.target)), d);
  }

  lemma {:induction false} DeliverFollows(db: Db, step: Step, d: string)
    requires step.DeliverStep? && Perform(db, step).Ok? && Follows(db, d)
    ensures Follows(Perform(db, step).value, d)
  {
    var next, id := Perform(db, step).value, step.notice;
    DeliverShape(db, step);
    if next.log != db.log {
      var x := db.notices[id].discrepancyId;
      NoticeFollows(db, next, Entry(BeginReplyKey(x, id), x, step.completedAt, PublishedBody(BeginReply(NoticeText(id)))), d);
    }
  }

  lemma {:induction false} NoticeFollows(db: Db, next: Db, e: Entry, d: string)
    requires Follows(db, d) && IsNotice(e, e.discrepancyId) && e.discrepancyId in db.cases && e.discrepancyId in next.cases
    requires next.log == db.log + [e] && next.replies == db.replies
    requires next.cases == db.cases[e.discrepancyId := next.cases[e.discrepancyId]]
    requires next.cases[e.discrepancyId].status == CaseAwaitingReply
    ensures Follows(next, d)
  {
    StageMore(db.log, e, d);
  }

  lemma {:induction false} ReplyFollows(db: Db, step: Step, d: string)
    requires step.ReplyStep? && Perform(db, step).Ok? && Follows(db, d)
    ensures Follows(Perform(db, step).value, d)
  {
    var x := step.d;
    var prior := if x in db.replies then db.replies[x] else [];
    StageMore(db.log, Entry(ResponseKey(x, |prior| + 1, step.at), x, step.at, PublishedBody(RecordResponse)), d);
  }

  lemma {:induction false} ExpireOneFollows(db: Db, x: string, now: int, d: string)
    requires x in db.states && x in db.cases && ExpireOne(db, x, now).Ok? && Follows(db, d)
    ensures Follows(ExpireOne(db, x, now).value, d)
  {
    StageMore(db.log, Entry(ReplyExpiredKey(x), x, now, PublishedBody(ExpireReplyWindow)), d);
  }

  lemma {:induction false} ExpiryFollows(db: Db, rows: seq<string>, n: nat, now: int, d: string)
    requires n <= |rows| && forall x | x in rows :: x in db.states && x in db.cases
    requires ExpireRows(db, rows, n, now).Ok? && Follows(db, d)
    ensures Follows(ExpireRows(db, rows, n, now).value, d)
  {
    if n > 0 {
      ExpiryFollows(db, rows, n - 1, now, d);
      ExpireOneFollows(ExpireRows(db, rows, n - 1, now).value, rows[n - 1], now, d);
    }
  }

  lemma {:induction false} DecideStage(db: Db, x: string, decision: Decision, at: int, d: string)
    requires x in db.states && Decide(db, x, decision, at).Ok?
    ensures var next := Decide(db, x, decision, at).value;
      && next == db.(states := next.states, log := next.log)
      && StageOf(next.log, d) == if d == x then CaseResolved else StageOf(db.log, d)
  {
    StageMore(db.log, Entry(ApproveKey(x, at), x, at, PublishedBody(Approve(DIGEST))), d);
    StageMore(db.log, Entry(WithholdKey(x, at), x, at, PublishedBody(Withhold(DIGEST))), d);
  }

  lemma {:induction false} ReviewFollows(db: Db, step: Step, d: string)
    requires step.ReviewStep? && Perform(db, step).Ok? && Follows(db, d)
    ensures Follows(Perform(db, step).value, d)
  {
    var x := step.d;
    if db.states[x].reply == ResponseReceived {
      var mid := Publish(db, x, ReviewResponseKey(x, step.at), ReviewResponse(DIGEST), step.at).value;
      PublishShape(db, x, ReviewResponseKey(x, step.at), ReviewResponse(DIGEST), step.at);
      StageMore(db.log, Entry(ReviewResponseKey(x, step.at), x, step.at, PublishedBody(ReviewResponse(DIGEST))), d);
      DecideStage(mid, x, step.decision, step.at, d);
    } else {
      DecideStage(db, x, step.decision, step.at, d);
    }
  }

  lemma {:induction false} EventsStage(db: Db, events: seq<MeasurementEvent>, d: string)
    requires LogEvents(db, events).Ok?
    ensures var next := LogEvents(db, events).value; next == db.(log := next.log) && StageOf(next.log, d) == StageOf(db.log, d)
  {
    if events != [] {
      EventsStage(db, events[..|events| - 1], d);
      StageMore(LogEvents(db, events[..|events| - 1]).value.log, MeasurementEntry(events[|events| - 1]), d);
    }
  }

  lemma {:induction false} MeasureFollows(db: Db, step: Step, d: string)
    requires step.MeasureStep? && Perform(db, step).Ok? && Follows(db, d)
    ensures Follows(Perform(db, step).value, d)
  {
    var prior := if step.d in db.states then Some(db.states[step.d]) else None;
    var a := Advance(prior, step.d, step.sourceId, step.namedParty, step.version, step.cycle).value;
    if a.ignored.None? && a.state.Some? {
      var row := if prior.Some? then a.state.value.(firstObservedAt := prior.value.firstObservedAt) else a.state.value;
      EventsStage(db.(states := db.states[step.d := row]), a.events, d);
    }
  }

  lemma {:induction false} StepFollows(db: Db, step: Step, d: string)
    requires Perform(db, step).Ok? && Follows(db, d)
    ensures Follows(Perform(db, step).value, d)
  {
    match step
    case DeliverStep(_, _, _, _, _) => DeliverFollows(db, step, d);
    case ReplyStep(_, _, _) => ReplyFollows(db, step, d);
    case ExpireStep(now, _, due) => ExpiryFollows(db, due, |due|, now, d);
    case ReviewStep(_, _, _, _, _) => ReviewFollows(db, step, d);
    case CorrectStep(_, _, _, _, _) => CorrectionFollows(db, step, d);
    case AmendStep(_, _, _, _, _, _) => AmendmentFollows(db, step, d);
    case MeasureStep(_, _, _, _, _) => MeasureFollows(db, step, d);
    case _ => QueueFollows(db, step, d);
  }

  /** In every run a case is a draft until its first notice, awaits a reply from a notice on, and so forth. */
  lemma {:induction false} CaseFollowsLog(steps: seq<Step>, d: string)
    ensures Follows(Run(EMPTY, steps), d)
  {
    if steps != [] {
      CaseFollowsLog(steps[..|steps| - 1], d);
      var before := Run(EMPTY, steps[..|steps| - 1]);
      if Perform(before, steps[|steps| - 1]).Ok? { StepFollows(before, steps[|steps| - 1], d); }
    }
  }
}
