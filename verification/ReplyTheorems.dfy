/** The main results about the case protocol, stated for every run and every interleaving. */
module ReplyTheorems {
  import opened Outcomes
  import opened Discrepancy
  import opened DiscrepancyLaws
  import opened ReplyCase
  import opened RightOfReply

  // ---- Right of reply ----------------------------------------------------------------------------

  /** The logged notice was delivered, and delivered when the log says. */
  ghost predicate NoticeDelivered(db: Db, e: Entry) {
    && e.key.BeginReplyKey? && e.key.discrepancyId == e.discrepancyId && e.key.notice in db.notices
    && db.notices[e.key.notice].discrepancyId == e.discrepancyId
    && db.notices[e.key.notice].status == Sent && db.notices[e.key.notice].sentAt == Some(e.at)
  }

  /** The logged response is a stored reply of this case. */
  ghost predicate ResponseStored(db: Db, e: Entry) {
    var d := e.discrepancyId;
    && e.key.ResponseKey? && e.key.discrepancyId == d && d in db.replies && 1 <= e.key.version <= |db.replies[d]|
    && db.replies[d][e.key.version - 1] == e.at
  }

  /**
   * Among the first `n` entries: a delivered notice with no measurement reset after it, followed either by a stored
   * reply and its review, or by an expiry at least 72 hours after the notice.
   */
  ghost predicate Heard(db: Db, d: string, n: nat)
    requires n <= |db.log|
  {
    exists i, j :: 0 <= i < j < n
      && IsNotice(db.log[i], d) && NoticeDelivered(db, db.log[i])
      && (forall m | i < m < n :: !IsReset(db.log[m], d))
      && ((IsExpiry(db.log[j], d) && db.log[i].at + REPLY_WINDOW_MS <= db.log[j].at)
          || (IsReview(db.log[j], d)
              && exists r :: i < r < j && IsResponse(db.log[r], d) && ResponseStored(db, db.log[r])))
  }

  lemma {:induction false} EntryAt(db: Db, i: nat)
    requires Inv(db) && i < |db.log|
    ensures Legal(db.log[..i], db.log[i]) && Witnessed(db, db.log[i])
  {
    assert db.log[..i] == db.log[..i];
  }

  lemma {:induction false} CompletedChainIsHeard(db: Db, d: string, n: nat)
    requires Inv(db) && n <= |db.log|
    requires var c := ChainOf(db.log[..n], d); c.Reviewed? || c.Expired?
    ensures Heard(db, d, n)
  {
    var prefix := db.log[..n];
    var c := ChainOf(prefix, d);
    ChainMeaning(prefix, d);
    EntryAt(db, c.i);
    assert prefix[c.i] == db.log[c.i];
    assert forall m | c.i < m < n :: db.log[m] == prefix[m];
    assert NoticeDelivered(db, db.log[c.i]);
    EntryAt(db, c.j);
    if c.Reviewed? {
      EntryAt(db, c.r);
      assert IsResponse(db.log[c.r], d) && ResponseStored(db, db.log[c.r]);
    } else {
      assert prefix[..c.j] == db.log[..c.j];
      assert db.log[..c.j][c.i] == db.log[c.i];
    }
  }

  /** In every run, each approval in the log comes after the named party was heard. */
  lemma {:induction false} EveryApprovalWasHeard(steps: seq<Step>, k: nat)
    requires k < |Run(EMPTY, steps).log| && Run(EMPTY, steps).log[k].body.PublishedBody?
    requires Run(EMPTY, steps).log[k].body.kind.Approve?
    ensures Heard(Run(EMPTY, steps), Run(EMPTY, steps).log[k].discrepancyId, k)
  {
    var db := Run(EMPTY, steps);
    ReachableInv(steps);
    EntryAt(db, k);
    CompletedChainIsHeard(db, db.log[k].discrepancyId, k);
  }

  /** In every reachable state, each flag that is public now was heard since its last measurement reset. */
  lemma {:induction false} EveryPublicFlagWasHeard(steps: seq<Step>, d: string)
    requires var db := Run(EMPTY, steps); d in db.states && db.states[d].publication == ApprovedPublic
    ensures var db := Run(EMPTY, steps); Heard(db, d, |db.log|)
  {
    var db := Run(EMPTY, steps);
    ReachableInv(steps);
    assert RowSound(db, d);
    assert db.log[..|db.log|] == db.log;
    CompletedChainIsHeard(db, d, |db.log|);
  }

  /** A notice starts at most one reply window, and a discrepancy is expired at most once in all. */
  lemma {:induction false} OneWindowPerNotice(steps: seq<Step>, i: nat, j: nat)
    requires i < j < |Run(EMPTY, steps).log|
    ensures var log := Run(EMPTY, steps).log; var d := log[i].discrepancyId;
      && (IsNotice(log[i], d) && IsNotice(log[j], d) ==>
            log[i].key.BeginReplyKey? && log[j].key.BeginReplyKey? && log[i].key.notice != log[j].key.notice)
      && !(IsExpiry(log[i], d) && IsExpiry(log[j], d))
  {
    var db := Run(EMPTY, steps);
    ReachableInv(steps);
    EntryAt(db, i);
    EntryAt(db, j);
    assert db.log[i].key != db.log[j].key;
  }

  // ---- The deadline ------------------------------------------------------------------------------

  /** In every reachable state an awaited reply has a case whose deadline is 72 hours after the notice began the window. */
  lemma {:induction false} DeadlineAgrees(steps: seq<Step>, d: string)
    requires var db := Run(EMPTY, steps); d in db.states && Awaiting(db.states[d])
    ensures var db := Run(EMPTY, steps);
      && d in db.cases && db.cases[d].status == CaseAwaitingReply
      && db.cases[d].replyDueAt == Some(db.states[d].publicationUpdatedAt + REPLY_WINDOW_MS)
      && exists i :: 0 <= i < |db.log| && IsNotice(db.log[i], d) && NoticeDelivered(db, db.log[i])
                     && db.log[i].at == db.states[d].publicationUpdatedAt && NoResetAfter(db.log, d, i)
  {
    ReachableInv(steps);
    assert RowSound(Run(EMPTY, steps), d);
    WindowBegan(Run(EMPTY, steps), d);
  }

  lemma {:induction false} WindowBegan(db: Db, d: string)
    requires Inv(db) && d in db.states && Awaiting(db.states[d])
    ensures exists i :: 0 <= i < |db.log| && IsNotice(db.log[i], d) && NoticeDelivered(db, db.log[i])
                        && db.log[i].at == db.states[d].publicationUpdatedAt && NoResetAfter(db.log, d, i)
  {
    assert RowSound(db, d);
    var i := ChainOf(db.log, d).i;
    ChainMeaning(db.log, d);
    EntryAt(db, i);
    assert IsNotice(db.log[i], d);
  }

  lemma {:induction false} ExpireOneShape(db: Db, d: string, now: int)
    requires RowSound(db, d) && WindowDue(db, d, now)
    ensures ExpireOne(db, d, now).Ok? <==> !HasKey(db.log, ReplyExpiredKey(d))
    ensures ExpireOne(db, d, now).Err? ==> ExpireOne(db, d, now) == Err(KeyConflict)
    ensures ExpireOne(db, d, now).Ok? ==>
      var next := ExpireOne(db, d, now).value;
      && |next.log| == |db.log| + 1 && next.log[..|db.log|] == db.log && next.log[|db.log|].key == ReplyExpiredKey(d)
      && Elsewhere(db, next, d)
  {
  }

  ghost predicate NoneExpired(log: seq<Entry>, rows: seq<string>, n: nat)
    requires n <= |rows|
  {
    forall i | 0 <= i < n :: !HasKey(log, ReplyExpiredKey(rows[i]))
  }

  /** The rows from position `n` on are as the query found them. */
  ghost predicate Waiting(db: Db, next: Db, rows: seq<string>, n: nat, now: int)
    requires n <= |rows|
  {
    forall i | n <= i < |rows| ::
      && WindowDue(next, rows[i], now)
      && (HasKey(next.log, ReplyExpiredKey(rows[i])) <==> HasKey(db.log, ReplyExpiredKey(rows[i])))
  }

  ghost predicate ExpiredExactly(db: Db, rows: seq<string>, n: nat, now: int, r: Outcome)
    requires n <= |rows|
  {
    && (r.Ok? <==> NoneExpired(db.log, rows, n))
    && (r.Err? ==> r == Err(KeyConflict))
    && (r.Ok? ==> Inv(r.value) && Waiting(db, r.value, rows, n, now))
  }

  /** What expiring one due row can do. */
  ghost predicate OneExpired(mid: Db, d: string, r: Outcome) {
    && (r.Ok? <==> !HasKey(mid.log, ReplyExpiredKey(d)))
    && (r.Err? ==> r == Err(KeyConflict))
    && (r.Ok? ==>
          && Inv(r.value) && Elsewhere(mid, r.value, d) && |r.value.log| == |mid.log| + 1
          && r.value.log[..|mid.log|] == mid.log && r.value.log[|mid.log|].key == ReplyExpiredKey(d))
  }

  lemma {:induction false} ExpireOneExactly(mid: Db, d: string, now: int)
    requires Inv(mid) && WindowDue(mid, d, now)
    ensures OneExpired(mid, d, ExpireOne(mid, d, now))
  {
    assert RowSound(mid, d);
    ExpireOneShape(mid, d, now);
    if ExpireOne(mid, d, now).Ok? { ExpireOneKeeps(mid, d, now); }
  }

  lemma {:induction false} NextRowExactly(db: Db, rows: seq<string>, n: nat, now: int, mid: Db, r: Outcome)
    requires 0 < n <= |rows| && (forall i, j | 0 <= i < j < |rows| :: rows[i] != rows[j])
    requires ExpiredExactly(db, rows, n - 1, now, Ok(mid)) && OneExpired(mid, rows[n - 1], r)
    ensures ExpiredExactly(db, rows, n, now, r)
  {
    assert HasKey(mid.log, ReplyExpiredKey(rows[n - 1])) <==> HasKey(db.log, ReplyExpiredKey(rows[n - 1]));
    if r.Ok? { }
  }

  lemma {:induction false} ExpireRowsExactly(db: Db, rows: seq<string>, n: nat, now: int)
    requires Inv(db) && n <= |rows| && DueWindows(db, now, |rows|, rows)
    ensures ExpiredExactly(db, rows, n, now, ExpireRows(db, rows, n, now))
  {
    if n > 0 {
      ExpireRowsExactly(db, rows, n - 1, now);
      var r := ExpireRows(db, rows, n - 1, now);
      if r.Ok? {
        assert WindowDue(r.value, rows[n - 1], now);
        ExpireOneExactly(r.value, rows[n - 1], now);
        NextRowExactly(db, rows, n, now, r.value, ExpireOne(r.value, rows[n - 1], now));
      }
    }
  }

  /**
   * The window guard of the transition never rejects a row the sweep selected. What can fail the sweep is the key of
   * the expiry event, which names the discrepancy only: it succeeds exactly when no selected discrepancy has been expired before.
   */
  lemma {:induction false} ExpirySweepExactly(steps: seq<Step>, now: int, limit: nat, rows: seq<string>)
    requires 1 <= limit <= 100 && DueWindows(Run(EMPTY, steps), now, limit, rows)
    ensures var db := Run(EMPTY, steps);
      && (ExpireWindows(db, now, limit, rows).Ok? <==> NoneExpired(db.log, rows, |rows|))
      && (ExpireWindows(db, now, limit, rows).Err? ==> ExpireWindows(db, now, limit, rows) == Err(KeyConflict))
  {
    ReachableInv(steps);
    ExpireRowsExactly(Run(EMPTY, steps), rows, |rows|, now);
  }

  // ---- What one transaction can do to one discrepancy ------------------------------------------

  predicate Started(db: Db, d: string) { d in db.states && db.states[d].publication != Internal }

  function Deadline(db: Db, d: string): Option<int> { if d in db.cases then db.cases[d].replyDueAt else None }

  ghost predicate ResetLogged(log: seq<Entry>, from: nat, d: string) {
    exists k :: from <= k < |log| && IsReset(log[k], d)
  }

  /** The log only grows, and once publication has started only a measurement reset moves it back or frees the deadline. */
  ghost predicate Moves(db: Db, next: Db, d: string) {
    && db.log <= next.log
    && (Started(db, d) ==> Deadline(next, d) == Deadline(db, d))
    && (Started(db, d) && !Started(next, d) ==> ResetLogged(next.log, |db.log|, d))
  }

  lemma {:induction false} PublishMoves(db: Db, d: string, key: Key, kind: ActionKind, at: int, x: string)
    requires d in db.states && Publish(db, d, key, kind, at).Ok?
    ensures var next := Publish(db, d, key, kind, at).value;
      && db.log <= next.log && next.cases == db.cases
      && (Started(db, x) ==> Started(next, x) && (x == d ==> !kind.BeginReply?))
  {
    PublishShape(db, d, key, kind, at);
  }

  lemma {:induction false} ExpireRowsMove(db: Db, rows: seq<string>, n: nat, now: int, x: string)
    requires n <= |rows| && forall d | d in rows :: d in db.states && d in db.cases
    requires ExpireRows(db, rows, n, now).Ok?
    ensures var next := ExpireRows(db, rows, n, now).value;
      db.log <= next.log && Deadline(next, x) == Deadline(db, x) && (Started(db, x) ==> Started(next, x))
  {
    if n > 0 {
      ExpireRowsMove(db, rows, n - 1, now, x);
      PublishMoves(ExpireRows(db, rows, n - 1, now).value, rows[n - 1], ReplyExpiredKey(rows[n - 1]), ExpireReplyWindow, now, x);
    }
  }

  lemma {:induction false} ReviewMoves(db: Db, d: string, authorized: bool, decision: Decision, allow: bool, at: int, x: string)
    requires Review(db, d, authorized, decision, allow, at).Ok?
    ensures Moves(db, Review(db, d, authorized, decision, allow, at).value, x)
  {
    if db.states[d].reply == ResponseReceived {
      PublishMoves(db, d, ReviewResponseKey(d, at), ReviewResponse(DIGEST), at, x);
    } else {
    }
  }

  lemma {:induction false} MeasureMoves(db: Db, d: string, sourceId: string, namedParty: bool, version: string, cycle: Cycle, x: string)
    requires Inv(db) && Measure(db, d, sourceId, namedParty, version, cycle).Ok?
    ensures Moves(db, Measure(db, d, sourceId, namedParty, version, cycle).value, x)
  {
    var next := Measure(db, d, sourceId, namedParty, version, cycle).value;
    var prior := if d in db.states then Some(db.states[d]) else None;
    var a := Advance(prior, d, sourceId, namedParty, version, cycle).value;
    assert RowSound(db, d);
    if a.ignored.None? && a.state.Some? {
      var row := if prior.Some? then a.state.value.(firstObservedAt := prior.value.firstObservedAt) else a.state.value;
      MeasuredRow(prior, d, sourceId, namedParty, version, cycle, a, row);
      assert LogEvents(db.(states := db.states[d := row]), a.events) == Ok(next);
      RowAndEventsMove(db, next, d, prior, row, a.events, x);
    }
  }

  lemma {:induction false} RowAndEventsMove(db: Db, next: Db, d: string, prior: Option<State>, row: State, events: seq<MeasurementEvent>, x: string)
    requires prior == if d in db.states then Some(db.states[d]) else None
    requires LogEvents(db.(states := db.states[d := row]), events) == Ok(next)
    requires |events| <= 2 && forall e | e in events :: e.discrepancyId == d
    requires |events| == 2 ==> events == [events[0], events[1]]
    requires |events| == 1 ==> events == [events[0]]
    requires if |events| == 1 && Resets(events[0]) then row.publication == Internal
             else prior.Some? && SameStanding(row, prior.value)
    ensures Moves(db, next, x)
  {
    EventsMove(db.(states := db.states[d := row]), events, d);
    if |events| == 1 && Resets(events[0]) {
      assert events[0] in events;
      assert IsReset(next.log[|db.log|], d);
    }
  }

  lemma {:induction false} EventsMove(stored: Db, events: seq<MeasurementEvent>, d: string)
    requires |events| <= 2 && LogEvents(stored, events).Ok?
    requires |events| == 2 ==> events == [events[0], events[1]]
    requires |events| == 1 ==> events == [events[0]]
    ensures var next := LogEvents(stored, events).value;
      && stored.log <= next.log && next == stored.(log := next.log)
      && (|events| == 1 ==> next.log == stored.log + [MeasurementEntry(events[0])])
  {
    if events != [] { LogEventsShape(stored, events); }
  }

  lemma {:induction false} StandingStepsMove(db: Db, step: Step, d: string)
    requires Perform(db, step).Ok?
    requires step.OpenCaseStep? || step.EnqueueStep? || step.ClaimStep? || step.RequeueStep? || step.CorrectStep?
             || step.AmendStep?
    requires d in db.cases ==> d in db.states
    ensures Moves(db, Perform(db, step).value, d)
  {}

  lemma {:induction false} ExchangeStepsMove(db: Db, step: Step, d: string)
    requires Inv(db) && Perform(db, step).Ok? && (step.DeliverStep? || step.ReplyStep?)
    ensures Moves(db, Perform(db, step).value, d)
  {
    assert RowSound(db, d);
  }

  lemma {:induction false} PerformMoves(db: Db, step: Step, d: string)
    requires Inv(db) && Perform(db, step).Ok?
    ensures Moves(db, Perform(db, step).value, d)
  {
    assert RowSound(db, d);
    match step
    case OpenCaseStep(_, _, _, _, _) => StandingStepsMove(db, step, d);
    case EnqueueStep(_, _, _, _, _, _) => StandingStepsMove(db, step, d);
    case ClaimStep(_, _, _, _, _) => StandingStepsMove(db, step, d);
    case DeliverStep(_, _, _, _, _) => ExchangeStepsMove(db, step, d);
    case RequeueStep(_, _, _) => StandingStepsMove(db, step, d);
    case ReplyStep(_, _, _) => ExchangeStepsMove(db, step, d);
    case ExpireStep(now, limit, due) => ExpireRowsMove(db, due, |due|, now, d);
    case ReviewStep(y, authorized, decision, allow, at) => ReviewMoves(db, y, authorized, decision, allow, at, d);
    case CorrectStep(_, _, _, _, _) => StandingStepsMove(db, step, d);
    case AmendStep(_, _, _, _, _, _) => StandingStepsMove(db, step, d);
    case MeasureStep(y, sourceId, namedParty, version, cycle) => MeasureMoves(db, y, sourceId, namedParty, version, cycle, d);
  }

  /**
   * Once a reply window has started, no later transaction (no further delivery in particular) moves the deadline or
   * takes publication back to internal, until a measurement resets the discrepancy.
   */
  lemma {:induction false} DeadlineStands(db: Db, steps: seq<Step>, d: string)
    requires Inv(db) && Started(db, d)
    ensures db.log <= Run(db, steps).log
    ensures !ResetLogged(Run(db, steps).log, |db.log|, d) ==>
              Started(Run(db, steps), d) && Deadline(Run(db, steps), d) == Deadline(db, d)
  {
    if steps != [] {
      var mid, step := Run(db, steps[..|steps| - 1]), steps[|steps| - 1];
      DeadlineStands(db, steps[..|steps| - 1], d);
      RunKeeps(db, steps[..|steps| - 1]);
      if Perform(mid, step).Ok? {
        PerformMoves(mid, step, d);
        var next := Perform(mid, step).value;
        if ResetLogged(mid.log, |db.log|, d) {
          var k :| |db.log| <= k < |mid.log| && IsReset(mid.log[k], d);
          assert IsReset(next.log[k], d);
        }
      }
    }
  }

  // ---- When the deadline moves -------------------------------------------------------------------

  /** The position of the last notice in the log, if there is one. */
  ghost predicate LastNotice(log: seq<Entry>, d: string, k: nat) {
    k < |log| && IsNotice(log[k], d) && forall m | k < m < |log| :: !IsNotice(log[m], d)
  }

  lemma {:induction false} LastNoticeExists(log: seq<Entry>, d: string) returns (k: nat)
    requires NoticeDeadline(log, d).Some?
    ensures LastNotice(log, d, k) && NoticeDeadline(log, d) == Some(log[k].at + REPLY_WINDOW_MS)
  {
    var n := |log| - 1;
    if IsNotice(log[n], d) {
      k := n;
    } else {
      k := LastNoticeExists(log[..n], d);
      forall m | k < m < |log| ensures !IsNotice(log[m], d) { assert m < n ==> log[m] == log[..n][m]; }
    }
  }

  lemma {:induction false} LastNoticeUnique(log: seq<Entry>, d: string, k: nat, l: nat)
    requires LastNotice(log, d, k) && LastNotice(log, d, l)
    ensures k == l
  {
    assert !(k < l) && !(l < k);
  }

  lemma {:induction false} NoticeHasDeadline(log: seq<Entry>, d: string, k: nat)
    requires k < |log| && IsNotice(log[k], d)
    ensures NoticeDeadline(log, d).Some?
  {
    if k < |log| - 1 { NoticeHasDeadline(log[..|log| - 1], d, k); }
  }

  /** A chain without a notice has a reset behind the last one. */
  lemma {:induction false} ResetBehind(log: seq<Entry>, d: string, i: nat) returns (r: nat)
    requires i < |log| && IsNotice(log[i], d) && ChainOf(log, d).NoNotice?
    ensures i < r < |log| && IsReset(log[r], d)
  {
    var n := |log| - 1;
    if IsReset(log[n], d) {
      r := n;
    } else {
      assert i < n;
      r := ResetBehind(log[..n], d, i);
    }
  }

  /** Between two notices of a discrepancy a measurement resets it. */
  lemma {:induction false} NoticesAreParted(db: Db, d: string, i: nat, k: nat) returns (r: nat)
    requires Inv(db) && i < k < |db.log| && IsNotice(db.log[i], d) && IsNotice(db.log[k], d)
    ensures i < r < k && IsReset(db.log[r], d)
  {
    EntryAt(db, k);
    r := ResetBehind(db.log[..k], d, i);
  }

  /** The last notice before `from` is at `i`, the last of all at `k`, and a reset lies between them at `r`. */
  ghost predicate Renewed(log: seq<Entry>, from: nat, d: string, i: nat, r: nat, k: nat) {
    && i < from <= k < |log| && i < r < k && LastNotice(log[..from], d, i) && IsReset(log[r], d) && LastNotice(log, d, k)
  }

  /** Behind `from` a reset was followed by a notice, the last of which sets another deadline. */
  ghost predicate BeganAnew(log: seq<Entry>, from: nat, d: string, deadline: int) {
    exists i: nat, r: nat, k: nat :: Renewed(log, from, d, i, r, k) && log[k].at + REPLY_WINDOW_MS != deadline
  }

  lemma {:induction false} RunGrows(db: Db, steps: seq<Step>)
    requires Inv(db)
    ensures db.log <= Run(db, steps).log
  {
    if steps != [] {
      var mid, step := Run(db, steps[..|steps| - 1]), steps[|steps| - 1];
      RunGrows(db, steps[..|steps| - 1]);
      RunKeeps(db, steps[..|steps| - 1]);
      if Perform(mid, step).Ok? { PerformMoves(mid, step, ""); }
    }
  }

  lemma {:induction false} NoticeHasCase(db: Db, d: string, i: nat)
    requires Inv(db) && i < |db.log| && IsNotice(db.log[i], d)
    ensures d in db.cases && Deadline(db, d) == NoticeDeadline(db.log, d)
  {
    EntryAt(db, i);
    assert RowSound(db, d);
  }

  lemma {:induction false} NoticeBefore(db: Db, d: string) returns (i: nat)
    requires Inv(db) && Deadline(db, d).Some?
    ensures LastNotice(db.log, d, i) && Deadline(db, d) == Some(db.log[i].at + REPLY_WINDOW_MS)
  {
    assert RowSound(db, d);
    i := LastNoticeExists(db.log, d);
  }

  lemma {:induction false} NoticeAfter(db: Db, d: string, i: nat) returns (k: nat)
    requires Inv(db) && i < |db.log| && IsNotice(db.log[i], d)
    ensures LastNotice(db.log, d, k) && Deadline(db, d) == Some(db.log[k].at + REPLY_WINDOW_MS)
  {
    NoticeHasCase(db, d, i);
    NoticeHasDeadline(db.log, d, i);
    k := LastNoticeExists(db.log, d);
  }

  /**
   * A deadline that was set differs after a run exactly when the run logged a further notice, at another time, and a
   * measurement reset lies between it and the notice that set the deadline. No other transaction moves it.
   */
  lemma {:induction false} DeadlineMovesExactly(db: Db, steps: seq<Step>, d: string)
    requires Inv(db) && Deadline(db, d).Some?
    ensures Deadline(Run(db, steps), d) != Deadline(db, d)
      <==> BeganAnew(Run(db, steps).log, |db.log|, d, Deadline(db, d).value)
  {
    var next := Run(db, steps);
    RunKeeps(db, steps);
    RunGrows(db, steps);
    var i := NoticeBefore(db, d);
    assert next.log[..|db.log|] == db.log && next.log[i] == db.log[i];
    var k := NoticeAfter(next, d, i);
    if |db.log| <= k {
      var r := NoticesAreParted(next, d, i, k);
      assert Renewed(next.log, |db.log|, d, i, r, k);
    } else {
      assert next.log[k] == db.log[k];
      assert LastNotice(db.log, d, k);
      LastNoticeUnique(db.log, d, i, k);
    }
    if BeganAnew(next.log, |db.log|, d, Deadline(db, d).value) {
      OneRenewal(next.log, |db.log|, d, Deadline(db, d).value, k);
    }
  }

  lemma {:induction false} OneRenewal(log: seq<Entry>, from: nat, d: string, deadline: int, k: nat)
    requires LastNotice(log, d, k) && BeganAnew(log, from, d, deadline)
    ensures from <= k && log[k].at + REPLY_WINDOW_MS != deadline
  {
    var i: nat, r: nat, l: nat :| Renewed(log, from, d, i, r, l) && log[l].at + REPLY_WINDOW_MS != deadline;
    LastNoticeUnique(log, d, k, l);
  }
}
