/**
 * What the transactions of the case protocol achieve: who wrote each entry of the log, that the stored standing of a
 * discrepancy is the one its log entries tell, and what a review, a reply, a sweep and a correction leave behind.
 */
module ReplyOutcomes {
  import opened Outcomes
  import opened Discrepancy
  import opened ReplyCase
  import opened RightOfReply
  import opened ReplyTheorems

  // ---- Who wrote an entry ------------------------------------------------------------------------

  /** The transaction that may log the action: its guard held, and the entry carries its time. */
  predicate WroteAction(step: Step, d: string, at: int, kind: ActionKind, key: Key) {
    match kind
    case BeginReply(_) =>
      step.DeliverStep? && step.delivery == Delivered && step.completedAt == at && key == BeginReplyKey(d, step.notice)
    case RecordResponse => step == ReplyStep(d, true, at)
    case ReviewResponse(_) => step.ReviewStep? && step.d == d && step.authorized && step.at == at
    case ExpireReplyWindow => step.ExpireStep? && d in step.due && step.now == at
    case Approve(_) => step == ReviewStep(d, true, ApprovePublic, true, at)
    case Withhold(_) => step.ReviewStep? && step.d == d && step.authorized && step.decision == WithholdFlag && step.at == at
  }

  predicate Wrote(step: Step, e: Entry) {
    match e.body
    case MeasuredBody(m) =>
      step.MeasureStep? && step.d == e.discrepancyId == m.discrepancyId && m.cycleId == step.cycle.id && e.at == step.cycle.at == m.at
    case PublishedBody(kind) => WroteAction(step, e.discrepancyId, e.at, kind, e.key)
    case AmendedBody(retracted, target) =>
      || (step == CorrectStep(e.discrepancyId, true, target, retracted, e.at) && e.key == AmendmentKey(e.discrepancyId, retracted, e.at))
      || (step.AmendStep? && step == AmendStep(step.text, e.discrepancyId, target, retracted, true, e.at) && e.key == TextKey(step.text))
  }

  /** The log keeps what it holds, and everything new was written by the step. */
  ghost predicate Writes(db: Db, next: Db, step: Step) {
    && |db.log| <= |next.log| && next.log[..|db.log|] == db.log
    && forall i | |db.log| <= i < |next.log| :: Wrote(step, next.log[i])
  }

  lemma {:induction false} ExpireOneWrites(db: Db, mid: Db, step: Step, d: string)
    requires step.ExpireStep? && d in step.due && d in mid.states && d in mid.cases && ExpireOne(mid, d, step.now).Ok?
    requires Writes(db, mid, step)
    ensures Writes(db, ExpireOne(mid, d, step.now).value, step)
  {
    PublishShape(mid, d, ReplyExpiredKey(d), ExpireReplyWindow, step.now);
  }

  lemma {:induction false} ExpiryWrites(db: Db, step: Step, n: nat)
    requires step.ExpireStep? && n <= |step.due| && forall d | d in step.due :: d in db.states && d in db.cases
    requires ExpireRows(db, step.due, n, step.now).Ok?
    ensures Writes(db, ExpireRows(db, step.due, n, step.now).value, step)
  {
    if n > 0 {
      ExpiryWrites(db, step, n - 1);
      ExpireOneWrites(db, ExpireRows(db, step.due, n - 1, step.now).value, step, step.due[n - 1]);
    }
  }

  lemma {:induction false} LogEventsWrites(db: Db, events: seq<MeasurementEvent>, step: Step)
    requires LogEvents(db, events).Ok? && forall e | e in events :: Wrote(step, MeasurementEntry(e))
    ensures Writes(db, LogEvents(db, events).value, step)
  {
    if events != [] { LogEventsWrites(db, events[..|events| - 1], step); }
  }

  lemma {:induction false} AdvanceWrites(prior: Option<State>, step: Step)
    requires step.MeasureStep? && Advance(prior, step.d, step.sourceId, step.namedParty, step.version, step.cycle).Ok?
    ensures forall e | e in Advance(prior, step.d, step.sourceId, step.namedParty, step.version, step.cycle).value.events ::
              Wrote(step, MeasurementEntry(e))
  {}

  lemma {:induction false} MeasureWrites(db: Db, step: Step)
    requires step.MeasureStep? && Perform(db, step).Ok?
    ensures Writes(db, Perform(db, step).value, step)
  {
    var prior := if step.d in db.states then Some(db.states[step.d]) else None;
    var a := Advance(prior, step.d, step.sourceId, step.namedParty, step.version, step.cycle).value;
    if a.ignored.None? && a.state.Some? {
      var row := if prior.Some? then a.state.value.(firstObservedAt := prior.value.firstObservedAt) else a.state.value;
      AdvanceWrites(prior, step);
      LogEventsWrites(db.(states := db.states[step.d := row]), a.events, step);
    }
  }

  lemma {:induction false} DecideWrites(db: Db, mid: Db, step: Step)
    requires step.ReviewStep? && step.authorized && (step.decision == ApprovePublic ==> step.allowNamedParty)
    requires Writes(db, mid, step) && step.d in mid.states && Decide(mid, step.d, step.decision, step.at).Ok?
    ensures Writes(db, Decide(mid, step.d, step.decision, step.at).value, step)
  {}

  lemma {:induction false} ReviewWrites(db: Db, step: Step)
    requires step.ReviewStep? && Perform(db, step).Ok?
    ensures Writes(db, Perform(db, step).value, step)
  {
    if db.states[step.d].reply == ResponseReceived {
      var mid := Publish(db, step.d, ReviewResponseKey(step.d, step.at), ReviewResponse(DIGEST), step.at).value;
      PublishShape(db, step.d, ReviewResponseKey(step.d, step.at), ReviewResponse(DIGEST), step.at);
      DecideWrites(db, mid, step);
    } else {
      DecideWrites(db, db, step);
    }
  }

  lemma {:induction false} ExchangeWrites(db: Db, step: Step)
    requires (step.DeliverStep? || step.ReplyStep?) && Perform(db, step).Ok?
    ensures Writes(db, Perform(db, step).value, step)
  {}

  lemma {:induction false} CorrectionWrites(db: Db, step: Step)
    requires step.CorrectStep? && Perform(db, step).Ok?
    ensures Writes(db, Perform(db, step).value, step)
  {}

  lemma {:induction false} AmendmentWrites(db: Db, step: Step)
    requires step.AmendStep? && Perform(db, step).Ok?
    ensures Writes(db, Perform(db, step).value, step)
  {}

  lemma {:induction false} StepWrites(db: Db, step: Step)
    requires Perform(db, step).Ok?
    ensures Writes(db, Perform(db, step).value, step)
  {
    match step
    case ExpireStep(_, _, due) => ExpiryWrites(db, step, |due|);
    case MeasureStep(_, _, _, _, _) => MeasureWrites(db, step);
    case ReviewStep(_, _, _, _, _) => ReviewWrites(db, step);
    case DeliverStep(_, _, _, _, _) => ExchangeWrites(db, step);
    case ReplyStep(_, _, _) => ExchangeWrites(db, step);
    case CorrectStep(_, _, _, _, _) => CorrectionWrites(db, step);
    case AmendStep(_, _, _, _, _, _) => AmendmentWrites(db, step);
    case _ =>
  }

  /**
   * In every run each log entry was written by one of its steps: an approval by an authorized review that decided to
   * approve while named-party publication was allowed, a withholding by an authorized review that decided so, a response by
   * an authorized reply, an expiry by a sweep, a notice by a delivery.
   */
  lemma {:induction false} EveryEntryWasWritten(steps: seq<Step>, k: nat) returns (j: nat)
    requires k < |Run(EMPTY, steps).log|
    ensures j < |steps| && Wrote(steps[j], Run(EMPTY, steps).log[k])
    ensures |Run(EMPTY, steps[..j]).log| <= k < |Run(EMPTY, steps[..j + 1]).log|
    ensures Run(EMPTY, steps[..j]).log <= Run(EMPTY, steps).log
  {
    var n := |steps| - 1;
    var before := Run(EMPTY, steps[..n]);
    if Perform(before, steps[n]).Ok? { StepWrites(before, steps[n]); }
    assert steps[..n + 1] == steps;
    if k < |before.log| {
      j := EveryEntryWasWritten(steps[..n], k);
      assert steps[..n][..j] == steps[..j] && steps[..n][..j + 1] == steps[..j + 1];
    } else {
      j := n;
    }
  }

  // ---- Two shapes --------------------------------------------------------------------------------

  /** A delivery logs nothing and leaves rows and cases alone, or begins the reply window. */
  lemma {:induction false} DeliverShape(db: Db, step: Step)
    requires step.DeliverStep? && Perform(db, step).Ok?
    ensures var next, id := Perform(db, step).value, step.notice;
      && next.replies == db.replies && id in db.notices
      && var x := db.notices[id].discrepancyId;
         if next.log == db.log then next.states == db.states && next.cases == db.cases
         else
           var sent := db.(attempts := db.attempts + {(id, db.notices[id].attempts + 1)},
                           notices := db.notices[id := SentNotice(db.notices[id], step.completedAt)]);
           && step.delivery == Delivered && x in db.states && x in db.cases
           && Publish(sent, x, BeginReplyKey(x, id), BeginReply(NoticeText(id)), step.completedAt).Ok?
           && next == Publish(sent, x, BeginReplyKey(x, id), BeginReply(NoticeText(id)), step.completedAt).value
                        .(cases := db.cases[x := db.cases[x].(status := CaseAwaitingReply,
                                                              replyDueAt := Some(step.completedAt + REPLY_WINDOW_MS))])
           && next.log == db.log + [Entry(BeginReplyKey(x, id), x, step.completedAt, PublishedBody(BeginReply(NoticeText(id))))]
  {}

  // ---- The standing a log tells ------------------------------------------------------------------

  /** Publication state and reply review, and since when. */
  datatype Told = Told(standing: Standing, since: int)

  predicate Retracts(e: Entry, d: string) {
    e.discrepancyId == d && e.body.AmendedBody? && e.body.retracted && e.key.AmendmentKey?
  }

  function Next(t: Told, e: Entry, d: string): Told {
    if IsReset(e, d) then Told((Internal, NotRequired), e.at)
    else if Retracts(e, d) then (if t.standing.0 == ApprovedPublic then Told((Withheld, t.standing.1), e.at) else t)
    else if !ActionOn(e, d) then t
    else
      match e.body.kind
      case BeginReply(_) => Told((PendingReply, AwaitingReply), e.at)
      case RecordResponse => Told((t.standing.0, ResponseReceived), e.at)
      case ReviewResponse(_) => Told((t.standing.0, ResponseReviewed), e.at)
      case ExpireReplyWindow => Told((t.standing.0, WindowExpired), e.at)
      case Approve(_) => Told((ApprovedPublic, t.standing.1), e.at)
      case Withhold(_) => Told((Withheld, t.standing.1), e.at)
  }

  function TellOf(log: seq<Entry>, d: string): Told {
    if log == [] then Told((Internal, NotRequired), 0) else Next(TellOf(log[..|log| - 1], d), log[|log| - 1], d)
  }

  lemma {:induction false} TellMore(log: seq<Entry>, e: Entry, d: string)
    ensures TellOf(log + [e], d) == Next(TellOf(log, d), e, d)
  {
    assert (log + [e])[..|log|] == log;
  }

  predicate Tells(s: State, t: Told) { (s.publication, s.reply) == t.standing && s.publicationUpdatedAt == t.since }

  ghost predicate Agrees(db: Db, d: string) { d in db.states ==> Tells(db.states[d], TellOf(db.log, d)) }

  lemma {:induction false} PublishTells(db: Db, d: string, key: Key, kind: ActionKind, at: int, x: string)
    requires d in db.states && Publish(db, d, key, kind, at).Ok? && Agrees(db, x) && !key.AmendmentKey?
    ensures Agrees(Publish(db, d, key, kind, at).value, x)
    ensures x in Publish(db, d, key, kind, at).value.states <==> x in db.states
  {
    TellMore(db.log, Entry(key, d, at, PublishedBody(kind)), x);
  }

  lemma {:induction false} ExpiryTells(db: Db, rows: seq<string>, n: nat, now: int, x: string)
    requires n <= |rows| && forall d | d in rows :: d in db.states && d in db.cases
    requires ExpireRows(db, rows, n, now).Ok? && Agrees(db, x)
    ensures Agrees(ExpireRows(db, rows, n, now).value, x)
  {
    if n > 0 {
      ExpiryTells(db, rows, n - 1, now, x);
      PublishTells(ExpireRows(db, rows, n - 1, now).value, rows[n - 1], ReplyExpiredKey(rows[n - 1]), ExpireReplyWindow, now, x);
    }
  }

  lemma {:induction false} DecideTells(db: Db, d: string, decision: Decision, at: int, x: string)
    requires d in db.states && Decide(db, d, decision, at).Ok? && Agrees(db, x)
    ensures Agrees(Decide(db, d, decision, at).value, x)
  {
    match decision
    case ApprovePublic => PublishTells(db, d, ApproveKey(d, at), Approve(DIGEST), at, x);
    case WithholdFlag => PublishTells(db, d, WithholdKey(d, at), Withhold(DIGEST), at, x);
  }

  lemma {:induction false} ReviewTells(db: Db, step: Step, x: string)
    requires step.ReviewStep? && Perform(db, step).Ok? && Agrees(db, x)
    ensures Agrees(Perform(db, step).value, x)
  {
    if db.states[step.d].reply == ResponseReceived {
      PublishTells(db, step.d, ReviewResponseKey(step.d, step.at), ReviewResponse(DIGEST), step.at, x);
      var mid := Publish(db, step.d, ReviewResponseKey(step.d, step.at), ReviewResponse(DIGEST), step.at).value;
      DecideTells(mid, step.d, step.decision, step.at, x);
    } else {
      DecideTells(db, step.d, step.decision, step.at, x);
    }
  }

  lemma {:induction false} ReplyTells(db: Db, step: Step, x: string)
    requires step.ReplyStep? && Perform(db, step).Ok? && Agrees(db, x)
    ensures Agrees(Perform(db, step).value, x)
  {
    var d := step.d;
    var prior := if d in db.replies then db.replies[d] else [];
    var replied := db.(replies := db.replies[d := prior + [step.at]], cases := db.cases[d := db.cases[d].(status := UnderReview)]);
    if db.states[d].reply == AwaitingReply {
      PublishTells(replied, d, ResponseKey(d, |prior| + 1, step.at), RecordResponse, step.at, x);
    }
  }

  lemma {:induction false} DeliverTells(db: Db, step: Step, x: string)
    requires step.DeliverStep? && Perform(db, step).Ok? && Agrees(db, x)
    ensures Agrees(Perform(db, step).value, x)
  {
    var next, id := Perform(db, step).value, step.notice;
    if next.log != db.log {
      var n := db.notices[id];
      var sent := db.(attempts := db.attempts + {(id, n.attempts + 1)}, notices := db.notices[id := SentNotice(n, step.completedAt)]);
      PublishTells(sent, n.discrepancyId, BeginReplyKey(n.discrepancyId, id), BeginReply(NoticeText(id)), step.completedAt, x);
    }
  }

  lemma {:induction false} CorrectionTells(db: Db, step: Step, x: string)
    requires step.CorrectStep? && Perform(db, step).Ok? && Agrees(db, x)
    ensures Agrees(Perform(db, step).value, x)
  {
    TellMore(db.log, Entry(AmendmentKey(step.d, step.retract, step.at), step.d, step.at, AmendedBody(step.retract, step.target)), x);
  }

  lemma {:induction false} AmendmentTells(db: Db, step: Step, x: string)
    requires step.AmendStep? && Perform(db, step).Ok? && Agrees(db, x)
    ensures Agrees(Perform(db, step).value, x)
  {
    TellMore(db.log, Entry(TextKey(step.text), step.d, step.at, AmendedBody(step.retract, step.target)), x);
  }

  lemma {:induction false} QueueTells(db: Db, step: Step, x: string)
    requires step.OpenCaseStep? || step.EnqueueStep? || step.ClaimStep? || step.RequeueStep?
    requires Perform(db, step).Ok? && Agrees(db, x)
    ensures Agrees(Perform(db, step).value, x)
  {}

  // ---- Measurements ------------------------------------------------------------------------------

  /** A measurement resets the standing at its time, or leaves it; with the event that says so. */
  lemma {:induction false} AdvanceStands(prior: Option<State>, d: string, sourceId: string, namedParty: bool, version: string,
                                         cycle: Cycle, a: Advanced)
    requires Advance(prior, d, sourceId, namedParty, version, cycle) == Ok(a) && a.ignored.None? && a.state.Some?
    ensures if |a.events| == 1 && Resets(a.events[0])
            then Tells(a.state.value, Told((Internal, NotRequired), cycle.at))
            else prior.Some? && SameStanding(a.state.value, prior.value) && forall e | e in a.events :: !Resets(e)
    ensures forall e | e in a.events :: e.discrepancyId == d && e.at == cycle.at
  {}

  lemma {:induction false} EventsTell(db: Db, events: seq<MeasurementEvent>, d: string, x: string)
    requires LogEvents(db, events).Ok? && forall e | e in events :: e.discrepancyId == d && (x != d || !Resets(e))
    ensures TellOf(LogEvents(db, events).value.log, x) == TellOf(db.log, x)
    ensures LogEvents(db, events).value.states == db.states
  {
    if events != [] {
      EventsTell(db, events[..|events| - 1], d, x);
      TellMore(LogEvents(db, events[..|events| - 1]).value.log, MeasurementEntry(events[|events| - 1]), x);
    }
  }

  lemma {:induction false} ResetTells(stored: Db, e: MeasurementEvent, d: string)
    requires LogEvents(stored, [e]).Ok? && e.discrepancyId == d && Resets(e)
    ensures TellOf(LogEvents(stored, [e]).value.log, d) == Told((Internal, NotRequired), e.at)
    ensures LogEvents(stored, [e]).value.states == stored.states
  {
    assert [e][..0] == [] && LogEvents(stored, []) == Ok(stored);
    assert LogEvents(stored, [e]) == Append(stored, MeasurementEntry(e));
    TellMore(stored.log, MeasurementEntry(e), d);
  }

  lemma {:induction false} MeasureTells(db: Db, step: Step, x: string)
    requires step.MeasureStep? && Perform(db, step).Ok? && Agrees(db, x)
    ensures Agrees(Perform(db, step).value, x)
  {
    var d := step.d;
    var prior := if d in db.states then Some(db.states[d]) else None;
    var a := Advance(prior, d, step.sourceId, step.namedParty, step.version, step.cycle).value;
    if a.ignored.None? && a.state.Some? {
      AdvanceStands(prior, d, step.sourceId, step.namedParty, step.version, step.cycle, a);
      var row := if prior.Some? then a.state.value.(firstObservedAt := prior.value.firstObservedAt) else a.state.value;
      var stored := db.(states := db.states[d := row]);
      MeasurementTells(db, stored, a.events, d, x, step.cycle.at);
    }
  }

  lemma {:induction false} MeasurementTells(db: Db, stored: Db, events: seq<MeasurementEvent>, d: string, x: string, at: int)
    requires stored == db.(states := stored.states) && LogEvents(stored, events).Ok? && Agrees(db, x)
    requires (forall e | e in events :: e.discrepancyId == d && e.at == at) && (|events| == 1 ==> events == [events[0]])
    requires d in stored.states && stored.states == db.states[d := stored.states[d]]
    requires if |events| == 1 && Resets(events[0]) then Tells(stored.states[d], Told((Internal, NotRequired), at))
             else d in db.states && SameStanding(stored.states[d], db.states[d]) && forall e | e in events :: !Resets(e)
    ensures Agrees(LogEvents(stored, events).value, x)
  {
    if x == d && |events| == 1 && Resets(events[0]) {
      assert events[0] in events;
      ResetTells(stored, events[0], d);
    } else {
      EventsTell(stored, events, d, x);
    }
  }

  lemma {:induction false} StepTells(db: Db, step: Step, x: string)
    requires Perform(db, step).Ok? && Agrees(db, x)
    ensures Agrees(Perform(db, step).value, x)
  {
    match step
    case DeliverStep(_, _, _, _, _) => DeliverTells(db, step, x);
    case ReplyStep(_, _, _) => ReplyTells(db, step, x);
    case ExpireStep(now, _, due) => ExpiryTells(db, due, |due|, now, x);
    case ReviewStep(_, _, _, _, _) => ReviewTells(db, step, x);
    case CorrectStep(_, _, _, _, _) => CorrectionTells(db, step, x);
    case AmendStep(_, _, _, _, _, _) => AmendmentTells(db, step, x);
    case MeasureStep(_, _, _, _, _) => MeasureTells(db, step, x);
    case _ => QueueTells(db, step, x);
  }

  /**
   * In every run the stored standing of a discrepancy is the one its log tells: internal since its last reset, pending since
   * its notice, public or withheld since the decision or retraction that made it so, and nothing else moves it.
   */
  lemma {:induction false} StandingFollowsLog(steps: seq<Step>, d: string)
    requires d in Run(EMPTY, steps).states
    ensures var db := Run(EMPTY, steps); Tells(db.states[d], TellOf(db.log, d))
  {
    AllAgree(steps, d);
  }

  lemma {:induction false} AllAgree(steps: seq<Step>, d: string)
    ensures Agrees(Run(EMPTY, steps), d)
  {
    if steps != [] {
      AllAgree(steps[..|steps| - 1], d);
      var before := Run(EMPTY, steps[..|steps| - 1]);
      if Perform(before, steps[|steps| - 1]).Ok? { StepTells(before, steps[|steps| - 1], d); }
    }
  }

  // ---- Public flags ------------------------------------------------------------------------------

  predicate IsApproval(e: Entry, d: string) { ActionOn(e, d) && e.body.kind.Approve? }

  predicate IsWithholding(e: Entry, d: string) { ActionOn(e, d) && e.body.kind.Withhold? }

  /** What takes a public flag back. */
  predicate TakesBack(e: Entry, d: string) { IsReset(e, d) || IsWithholding(e, d) || Retracts(e, d) || IsNotice(e, d) }

  ghost predicate StillApproved(log: seq<Entry>, d: string) {
    exists i :: 0 <= i < |log| && IsApproval(log[i], d) && forall m | i < m < |log| :: !TakesBack(log[m], d)
  }

  lemma {:induction false} ApprovedMore(log: seq<Entry>, e: Entry, d: string)
    ensures StillApproved(log + [e], d) <==> IsApproval(e, d) || (StillApproved(log, d) && !TakesBack(e, d))
  {
    var more := log + [e];
    if StillApproved(log, d) && !TakesBack(e, d) {
      var i :| 0 <= i < |log| && IsApproval(log[i], d) && forall m | i < m < |log| :: !TakesBack(log[m], d);
      assert IsApproval(more[i], d) && forall m | i < m < |more| :: !TakesBack(more[m], d);
    }
    if IsApproval(e, d) { assert IsApproval(more[|log|], d); }
    if StillApproved(more, d) && !IsApproval(e, d) {
      var i :| 0 <= i < |more| && IsApproval(more[i], d) && forall m | i < m < |more| :: !TakesBack(more[m], d);
      assert i < |log| && more[|log|] == e;
      assert forall m | i < m < |log| :: !TakesBack(log[m], d) by { assert forall m | i < m < |log| :: log[m] == more[m]; }
      assert IsApproval(log[i], d);
    }
  }

  lemma {:induction false} PublicTold(log: seq<Entry>, d: string)
    ensures TellOf(log, d).standing.0 == ApprovedPublic <==> StillApproved(log, d)
  {
    if log != [] {
      var n := |log| - 1;
      PublicTold(log[..n], d);
      ApprovedMore(log[..n], log[n], d);
      assert log == log[..n] + [log[n]];
    }
  }

  /**
   * In every run a flag is public exactly when its log holds an approval with no reset, withholding or retraction by a
   * correction behind it; every such approval was decided by an authorized reviewer while publication was allowed.
   */
  lemma {:induction false} PublicExactly(steps: seq<Step>, d: string)
    requires d in Run(EMPTY, steps).states
    ensures var db := Run(EMPTY, steps);
      db.states[d].publication == ApprovedPublic <==> StillApproved(db.log, d)
    ensures forall i | 0 <= i < |Run(EMPTY, steps).log| && IsApproval(Run(EMPTY, steps).log[i], d) ::
              exists j :: 0 <= j < |steps| && steps[j] == ReviewStep(d, true, ApprovePublic, true, Run(EMPTY, steps).log[i].at)
  {
    AllAgree(steps, d);
    PublicTold(Run(EMPTY, steps).log, d);
    forall i | 0 <= i < |Run(EMPTY, steps).log| && IsApproval(Run(EMPTY, steps).log[i], d)
      ensures exists j :: 0 <= j < |steps| && steps[j] == ReviewStep(d, true, ApprovePublic, true, Run(EMPTY, steps).log[i].at)
    {
      var j := EveryEntryWasWritten(steps, i);
    }
  }

  // ---- The measured fields -----------------------------------------------------------------------

  /** Severity, lifecycle and streaks, with the time they were last seen. */
  datatype Seen = Seen(severity: Severity, lifecycle: Lifecycle, cycles: int, aboveInfo: int, at: int)

  function SeenIn(e: MeasurementEvent): Seen { Seen(e.after.severity, e.after.lifecycle, e.after.cycles, e.after.aboveInfo, e.at) }

  predicate Shows(s: State, seen: Seen) {
    s.severity == seen.severity && s.lifecycle == seen.lifecycle && s.cycles == seen.cycles && s.aboveInfo == seen.aboveInfo
    && s.lastObservedAt == seen.at
  }

  function LastSeen(log: seq<Entry>, d: string): Option<Seen> {
    if log == [] then None
    else if log[|log| - 1].discrepancyId == d && log[|log| - 1].body.MeasuredBody? then Some(SeenIn(log[|log| - 1].body.event))
    else LastSeen(log[..|log| - 1], d)
  }

  ghost predicate Shown(db: Db, d: string) {
    if d in db.states then LastSeen(db.log, d).Some? && Shows(db.states[d], LastSeen(db.log, d).value)
    else LastSeen(db.log, d).None?
  }

  lemma {:induction false} SeenMore(log: seq<Entry>, e: Entry, d: string)
    ensures LastSeen(log + [e], d)
         == if e.discrepancyId == d && e.body.MeasuredBody? then Some(SeenIn(e.body.event)) else LastSeen(log, d)
  {
    assert (log + [e])[..|log|] == log;
  }

  /** The new entries are no measurements, and no row changed in what measurement sees. */
  lemma {:induction false} ActionsShow(db: Db, next: Db, n: nat, d: string)
    requires Shown(db, d) && |db.log| <= n <= |next.log| && next.log[..|db.log|] == db.log
    requires forall i | |db.log| <= i < |next.log| :: !next.log[i].body.MeasuredBody?
    ensures LastSeen(next.log[..n], d) == LastSeen(db.log, d)
  {
    if n > |db.log| {
      ActionsShow(db, next, n - 1, d);
      assert next.log[..n] == next.log[..n - 1] + [next.log[n - 1]];
      SeenMore(next.log[..n - 1], next.log[n - 1], d);
    }
  }

  predicate SameSeen(db: Db, next: Db, d: string) {
    && (d in db.states <==> d in next.states)
    && (d in db.states ==>
          Shows(next.states[d], Seen(db.states[d].severity, db.states[d].lifecycle, db.states[d].cycles, db.states[d].aboveInfo,
                                     db.states[d].lastObservedAt)))
  }

  lemma {:induction false} ExpirySees(db: Db, rows: seq<string>, n: nat, now: int, d: string)
    requires n <= |rows| && forall x | x in rows :: x in db.states && x in db.cases
    requires ExpireRows(db, rows, n, now).Ok?
    ensures SameSeen(db, ExpireRows(db, rows, n, now).value, d)
  {
    if n > 0 {
      ExpirySees(db, rows, n - 1, now, d);
      PublishShape(ExpireRows(db, rows, n - 1, now).value, rows[n - 1], ReplyExpiredKey(rows[n - 1]), ExpireReplyWindow, now);
    }
  }

  lemma {:induction false} DecideSees(db: Db, mid: Db, step: Step, d: string)
    requires step.ReviewStep? && SameSeen(db, mid, d) && step.d in mid.states && Decide(mid, step.d, step.decision, step.at).Ok?
    ensures SameSeen(db, Decide(mid, step.d, step.decision, step.at).value, d)
  {}

  lemma {:induction false} ReviewSees(db: Db, step: Step, d: string)
    requires step.ReviewStep? && Perform(db, step).Ok?
    ensures SameSeen(db, Perform(db, step).value, d)
  {
    if db.states[step.d].reply == ResponseReceived {
      var mid := Publish(db, step.d, ReviewResponseKey(step.d, step.at), ReviewResponse(DIGEST), step.at).value;
      PublishShape(db, step.d, ReviewResponseKey(step.d, step.at), ReviewResponse(DIGEST), step.at);
      DecideSees(db, mid, step, d);
    } else {
      DecideSees(db, db, step, d);
    }
  }

  lemma {:induction false} ExchangeSees(db: Db, step: Step, d: string)
    requires (step.DeliverStep? || step.ReplyStep?) && Perform(db, step).Ok?
    ensures SameSeen(db, Perform(db, step).value, d)
  {}

  lemma {:induction false} QueueSees(db: Db, step: Step, d: string)
    requires step.OpenCaseStep? || step.EnqueueStep? || step.ClaimStep? || step.RequeueStep? || step.CorrectStep? || step.AmendStep?
    requires Perform(db, step).Ok?
    ensures SameSeen(db, Perform(db, step).value, d)
  {}

  lemma {:induction false} OthersSee(db: Db, step: Step, d: string)
    requires !step.MeasureStep? && Perform(db, step).Ok?
    ensures SameSeen(db, Perform(db, step).value, d)
  {
    if step.ExpireStep? { ExpirySees(db, step.due, |step.due|, step.now, d); }
    else if step.ReviewStep? { ReviewSees(db, step, d); }
    else if step.DeliverStep? || step.ReplyStep? { ExchangeSees(db, step, d); }
    else { QueueSees(db, step, d); }
  }

  /** What a measurement shows in the state it returns is what its last event says, or what the prior state showed. */
  lemma {:induction false} AdvanceShows(prior: Option<State>, d: string, sourceId: string, namedParty: bool, version: string,
                                        cycle: Cycle, a: Advanced)
    requires Advance(prior, d, sourceId, namedParty, version, cycle) == Ok(a) && a.ignored.None? && a.state.Some?
    ensures if a.events == []
            then prior.Some? && Shows(a.state.value, Seen(prior.value.severity, prior.value.lifecycle, prior.value.cycles,
                                                          prior.value.aboveInfo, prior.value.lastObservedAt))
            else Shows(a.state.value, SeenIn(a.events[|a.events| - 1]))
    ensures forall e | e in a.events :: e.discrepancyId == d
  {}

  lemma {:induction false} EventsSeen(stored: Db, events: seq<MeasurementEvent>, d: string, x: string)
    requires LogEvents(stored, events).Ok? && forall e | e in events :: e.discrepancyId == d
    ensures LogEvents(stored, events).value == stored.(log := LogEvents(stored, events).value.log)
    ensures LastSeen(LogEvents(stored, events).value.log, x)
         == if x == d && events != [] then Some(SeenIn(events[|events| - 1])) else LastSeen(stored.log, x)
  {
    if events != [] {
      EventsSeen(stored, events[..|events| - 1], d, x);
      SeenMore(LogEvents(stored, events[..|events| - 1]).value.log, MeasurementEntry(events[|events| - 1]), x);
    }
  }

  lemma {:induction false} MeasureShows(db: Db, step: Step, x: string)
    requires step.MeasureStep? && Perform(db, step).Ok? && Shown(db, x)
    ensures Shown(Perform(db, step).value, x)
  {
    var d := step.d;
    var prior := if d in db.states then Some(db.states[d]) else None;
    var a := Advance(prior, d, step.sourceId, step.namedParty, step.version, step.cycle).value;
    if a.ignored.None? && a.state.Some? {
      var row := if prior.Some? then a.state.value.(firstObservedAt := prior.value.firstObservedAt) else a.state.value;
      AdvanceShows(prior, d, step.sourceId, step.namedParty, step.version, step.cycle, a);
      EventsSeen(db.(states := db.states[d := row]), a.events, d, x);
    }
  }

  /**
   * In every run the measured fields of a stored discrepancy are those of its last logged measurement event, and it was
   * last observed then.
   */
  lemma {:induction false} MeasuredFollowsLog(steps: seq<Step>, d: string)
    ensures Shown(Run(EMPTY, steps), d)
  {
    if steps != [] {
      MeasuredFollowsLog(steps[..|steps| - 1], d);
      var before, step := Run(EMPTY, steps[..|steps| - 1]), steps[|steps| - 1];
      if Perform(before, step).Ok? {
        if step.MeasureStep? {
          MeasureShows(before, step, d);
        } else {
          var next := Perform(before, step).value;
          StepWrites(before, step);
          OthersSee(before, step, d);
          ActionsShow(before, next, |next.log|, d);
          assert next.log[..|next.log|] == next.log;
        }
      }
    }
  }
}
