/** What the case protocol guarantees over every interleaving of its transactions. */
module RightOfReply {
  import opened Outcomes
  import opened Discrepancy
  import opened ReplyCase

  // ---- Reading the log ---------------------------------------------------------------------------

  predicate ActionOn(e: Entry, d: string) { e.discrepancyId == d && e.body.PublishedBody? }

  predicate IsNotice(e: Entry, d: string) { ActionOn(e, d) && e.body.kind.BeginReply? }
  predicate IsResponse(e: Entry, d: string) { ActionOn(e, d) && e.body.kind.RecordResponse? }
  predicate IsReview(e: Entry, d: string) { ActionOn(e, d) && e.body.kind.ReviewResponse? }
  predicate IsExpiry(e: Entry, d: string) { ActionOn(e, d) && e.body.kind.ExpireReplyWindow? }

  /** A measurement that returns the discrepancy to internal: a new episode, or a fall to Info. */
  predicate IsReset(e: Entry, d: string) {
    && e.discrepancyId == d && e.body.MeasuredBody?
    && (e.body.event.kind == Opened || (e.body.event.kind == Observed && e.body.event.after.severity == Info))
  }

  ghost predicate NoResetAfter(log: seq<Entry>, d: string, i: nat) {
    forall k | i < k < |log| :: !IsReset(log[k], d)
  }

  /** How far the reply procedure of `d` has come since its last reset, with the positions of its entries. */
  datatype Chain =
    | NoNotice
    | Noticed(i: nat)
    | Answered(i: nat, r: nat)
    | Reviewed(i: nat, r: nat, j: nat)
    | Expired(i: nat, j: nat)

  function Extend(c: Chain, e: Entry, d: string, at: nat): Chain {
    if IsReset(e, d) then NoNotice
    else if IsNotice(e, d) then Noticed(at)
    else if IsResponse(e, d) && c.Noticed? then Answered(c.i, at)
    else if IsReview(e, d) && c.Answered? then Reviewed(c.i, c.r, at)
    else if IsExpiry(e, d) && c.Noticed? then Expired(c.i, at)
    else c
  }

  function ChainOf(log: seq<Entry>, d: string): Chain {
    if log == [] then NoNotice
    else Extend(ChainOf(log[..|log| - 1], d), log[|log| - 1], d, |log| - 1)
  }

  /** What a chain says about the log, independently of how it was computed. */
  ghost predicate Meaning(log: seq<Entry>, d: string, c: Chain) {
    match c
    case NoNotice => true
    case Noticed(i) => i < |log| && IsNotice(log[i], d) && NoResetAfter(log, d, i)
    case Answered(i, r) =>
      i < r < |log| && IsNotice(log[i], d) && IsResponse(log[r], d) && NoResetAfter(log, d, i)
    case Reviewed(i, r, j) =>
      i < r < j < |log| && IsNotice(log[i], d) && IsResponse(log[r], d) && IsReview(log[j], d) && NoResetAfter(log, d, i)
    case Expired(i, j) =>
      && i < j < |log| && IsNotice(log[i], d) && IsExpiry(log[j], d) && NoResetAfter(log, d, i)
      && ChainOf(log[..j], d) == Noticed(i)
  }

  lemma {:induction false} ChainMeaning(log: seq<Entry>, d: string)
    ensures Meaning(log, d, ChainOf(log, d))
  {
    if log != [] {
      var n := |log| - 1;
      var prefix := log[..n];
      ChainMeaning(prefix, d);
      var c := ChainOf(prefix, d);
      if c.Expired? { assert log[..c.j] == prefix[..c.j]; }
      if !IsReset(log[n], d) && !c.NoNotice? {
        forall k | c.i < k < |log| ensures !IsReset(log[k], d) {
          assert k < n ==> log[k] == prefix[k];
        }
      }
    }
  }

  // ---- The invariant -----------------------------------------------------------------------------

  /** The entry was allowed by the entries before it. */
  ghost predicate Legal(log: seq<Entry>, e: Entry) {
    var d := e.discrepancyId;
    var c := ChainOf(log, d);
    e.body.PublishedBody? ==>
      match e.body.kind
      case BeginReply(_) => c.NoNotice? && e.key.BeginReplyKey? && e.key.discrepancyId == d
      case RecordResponse => c.Noticed? && e.key.ResponseKey? && e.key.discrepancyId == d && e.key.submittedAt == e.at
      case ReviewResponse(_) => c.Answered?
      case ExpireReplyWindow =>
        c.Noticed? && e.key == ReplyExpiredKey(d) && c.i < |log| && log[c.i].at + REPLY_WINDOW_MS <= e.at
      case Approve(_) => c.Reviewed? || c.Expired?
      case Withhold(_) => true
  }

  ghost predicate LegalLog(log: seq<Entry>) {
    forall k {:trigger log[..k]} | 0 <= k < |log| :: Legal(log[..k], log[k])
  }

  lemma {:induction false} AppendLegal(log: seq<Entry>, e: Entry)
    requires LegalLog(log) && Legal(log, e)
    ensures LegalLog(log + [e])
  {
    forall k {:trigger (log + [e])[..k]} | 0 <= k < |log + [e]| ensures Legal((log + [e])[..k], (log + [e])[k]) {
      assert (log + [e])[..k] == log[..k];
      assert log[..|log|] == log;
    }
  }

  /** The stored standing of `d` and the chain of its log entries tell the same story. */
  ghost predicate Linked(s: State, log: seq<Entry>, d: string) {
    var c := ChainOf(log, d);
    match s.publication
    case Internal => c.NoNotice?
    case PendingReply =>
      (match s.reply
       case AwaitingReply => c.Noticed? && c.i < |log| && log[c.i].at == s.publicationUpdatedAt
       case ResponseReceived => c.Answered?
       case ResponseReviewed => c.Reviewed?
       case WindowExpired => c.Expired?
       case NotRequired => false)
    case ApprovedPublic => c.Reviewed? || c.Expired?
    case Withheld => true
  }

  /** 72 hours after the last notice in the log. */
  function NoticeDeadline(log: seq<Entry>, d: string): Option<int> {
    if log == [] then None
    else if IsNotice(log[|log| - 1], d) then Some(log[|log| - 1].at + REPLY_WINDOW_MS)
    else NoticeDeadline(log[..|log| - 1], d)
  }

  predicate Awaiting(s: State) { s.publication == PendingReply && s.reply == AwaitingReply }

  ghost predicate RowSound(db: Db, d: string) {
    && (d in db.states ==>
          && Valid(db.states[d]) && db.states[d].discrepancyId == d
          && Linked(db.states[d], db.log, d)
          && (Awaiting(db.states[d]) ==>
                && d in db.cases && db.cases[d].status == CaseAwaitingReply
                && db.cases[d].replyDueAt == Some(db.states[d].publicationUpdatedAt + REPLY_WINDOW_MS)))
    && (d in db.cases ==>
          d in db.states && db.states[d].namedParty && db.cases[d].replyDueAt == NoticeDeadline(db.log, d))
  }

  /** What the other tables keep about a log entry. */
  ghost predicate Witnessed(db: Db, e: Entry) {
    && (e.key.BeginReplyKey? ==>
          e.key.notice in db.notices && db.notices[e.key.notice].status == Sent
          && db.notices[e.key.notice].discrepancyId == e.key.discrepancyId
          && db.notices[e.key.notice].sentAt == Some(e.at))
    && (e.key.ResponseKey? ==>
          e.key.discrepancyId in db.replies && 1 <= e.key.version <= |db.replies[e.key.discrepancyId]|
          && db.replies[e.key.discrepancyId][e.key.version - 1] == e.key.submittedAt)
    && (e.body.MeasuredBody? ==> e.discrepancyId in db.states && db.states[e.discrepancyId].firstObservedAt <= e.at)
  }

  ghost predicate DistinctKeys(log: seq<Entry>) {
    forall i, j | 0 <= i < j < |log| :: log[i].key != log[j].key
  }

  /** Notices exist only for opened cases, and their delivery attempts are counted. */
  ghost predicate Owned(db: Db) {
    && (forall n | n in db.notices :: db.notices[n].discrepancyId in db.cases)
    && (forall a | a in db.attempts :: a.0 in db.notices && a.1 <= db.notices[a.0].attempts)
  }

  ghost predicate Inv(db: Db) {
    && Owned(db)
    && (forall d :: RowSound(db, d))
    && LegalLog(db.log) && DistinctKeys(db.log)
    && (forall i | 0 <= i < |db.log| :: Witnessed(db, db.log[i]))
  }

  /** The tables beside the log only gain: sent notices, replies and first observations are never rewritten. */
  ghost predicate Keeps(db: Db, next: Db) {
    && (forall n | n in db.notices && db.notices[n].status == Sent :: n in next.notices && next.notices[n] == db.notices[n])
    && (forall d | d in db.replies :: d in next.replies && db.replies[d] <= next.replies[d])
    && (forall d | d in db.states :: d in next.states && next.states[d].firstObservedAt == db.states[d].firstObservedAt)
  }

  /** Only `d` was touched. */
  ghost predicate Elsewhere(db: Db, next: Db, d: string) {
    forall x | x != d ::
      && (x in db.states <==> x in next.states) && (x in db.states ==> next.states[x] == db.states[x])
      && (x in db.cases <==> x in next.cases) && (x in db.cases ==> next.cases[x] == db.cases[x])
  }

  lemma {:induction false} UnloggedKeeps(db: Db, next: Db, d: string)
    requires Inv(db) && Keeps(db, next) && Elsewhere(db, next, d) && next.log == db.log && RowSound(next, d)
    requires Owned(next)
    ensures Inv(next)
  {
    forall x ensures RowSound(next, x) { assert RowSound(db, x); }
    forall i | 0 <= i < |next.log| ensures Witnessed(next, next.log[i]) { }
  }

  /** The log may grow by one entry of `d` whose key is new. */
  lemma {:induction false} LoggedKeeps(db: Db, next: Db, d: string, e: Entry)
    requires Inv(db) && Keeps(db, next) && Elsewhere(db, next, d) && next.log == db.log + [e] && RowSound(next, d)
    requires e.discrepancyId == d && Legal(db.log, e) && Witnessed(next, e) && !HasKey(db.log, e.key) && Owned(next)
    ensures Inv(next)
  {
    AppendLegal(db.log, e);
    forall x ensures RowSound(next, x) {
      assert RowSound(db, x);
      if x != d {
        NextDeadline(db.log, e, x);
        if x in db.states { LinkedElsewhere(db.states[x], db.log, e, x); }
      }
    }
    forall i | 0 <= i < |next.log| ensures Witnessed(next, next.log[i]) {
      if i < |db.log| { }
    }
  }

  lemma {:induction false} LinkedElsewhere(s: State, log: seq<Entry>, e: Entry, d: string)
    requires Linked(s, log, d) && e.discrepancyId != d
    ensures Linked(s, log + [e], d)
  {
  }

  lemma {:induction false} NextDeadline(log: seq<Entry>, e: Entry, d: string)
    ensures NoticeDeadline(log + [e], d) == if IsNotice(e, d) then Some(e.at + REPLY_WINDOW_MS) else NoticeDeadline(log, d)
  {
    assert (log + [e])[..|log|] == log;
  }

  // ---- Publication actions keep the invariant ----------------------------------------------------

  /** Each action is logged under a key of its own kind. */
  predicate KeyFits(key: Key, kind: ActionKind, d: string, at: int) {
    match kind
    case BeginReply(_) => key.BeginReplyKey? && key.discrepancyId == d
    case RecordResponse => key.ResponseKey? && key.discrepancyId == d && key.submittedAt == at
    case ExpireReplyWindow => key == ReplyExpiredKey(d)
    case ReviewResponse(_) => key.ReviewResponseKey?
    case Approve(_) => key.ApproveKey?
    case Withhold(_) => key.WithholdKey?
  }

  lemma {:induction false} ActionLinked(s: State, log: seq<Entry>, d: string, key: Key, kind: ActionKind, at: int)
    requires Linked(s, log, d) && s.namedParty && KeyFits(key, kind, d, at)
    requires Transition(s, Action(DIGEST, at, kind)).Ok?
    ensures var e := Entry(key, d, at, PublishedBody(kind));
      Legal(log, e) && Linked(Transition(s, Action(DIGEST, at, kind)).value.state, log + [e], d)
  {
  }

  lemma {:induction false} PublishShape(db: Db, d: string, key: Key, kind: ActionKind, at: int)
    requires d in db.states && Publish(db, d, key, kind, at).Ok?
    ensures var next := Publish(db, d, key, kind, at).value;
      var r := Transition(db.states[d], Action(DIGEST, at, kind));
      && r.Ok? && next == db.(states := db.states[d := r.value.state], log := db.log + [Entry(key, d, at, PublishedBody(kind))])
      && r.value.state == db.states[d].(publication := r.value.state.publication, reply := r.value.state.reply,
                                        publicationUpdatedAt := at)
      && Valid(r.value.state)
      && !HasKey(db.log, key)
      && (Awaiting(r.value.state) ==> kind.BeginReply?)
  {}

  /** An action on a named party's discrepancy, with any change to its case that leaves a fresh window agreeing. */
  lemma {:induction false} PublishKeeps(before: Db, db: Db, next: Db, d: string, key: Key, kind: ActionKind, at: int)
    requires Inv(before) && d in before.states && before.states[d].namedParty && KeyFits(key, kind, d, at)
    requires db.states == before.states && db.log == before.log && Publish(db, d, key, kind, at).Ok?
    requires next.states == Publish(db, d, key, kind, at).value.states
    requires next.log == Publish(db, d, key, kind, at).value.log
    requires Keeps(before, next) && Elsewhere(before, next, d) && Owned(next)
    requires Witnessed(next, Entry(key, d, at, PublishedBody(kind)))
    requires d in before.cases <==> d in next.cases
    requires d in before.cases && !kind.BeginReply? ==> next.cases[d].replyDueAt == before.cases[d].replyDueAt
    requires kind.BeginReply? ==>
               d in next.cases && next.cases[d].status == CaseAwaitingReply
               && next.cases[d].replyDueAt == Some(at + REPLY_WINDOW_MS)
    ensures Inv(next)
  {
    PublishShape(db, d, key, kind, at);
    assert RowSound(before, d);
    ActionLinked(before.states[d], before.log, d, key, kind, at);
    NextDeadline(before.log, Entry(key, d, at, PublishedBody(kind)), d);
    assert RowSound(next, d);
    LoggedKeeps(before, next, d, Entry(key, d, at, PublishedBody(kind)));
  }

  // ---- Every transaction keeps the invariant -----------------------------------------------------

  lemma {:induction false} NoDeadline(log: seq<Entry>, d: string)
    requires forall i | 0 <= i < |log| :: !IsNotice(log[i], d)
    ensures NoticeDeadline(log, d).None?
  {
    if log != [] { NoDeadline(log[..|log| - 1], d); }
  }

  lemma {:induction false} NoNoticeYet(db: Db, d: string)
    requires Inv(db) && d !in db.cases
    ensures NoticeDeadline(db.log, d).None?
  {
    forall i | 0 <= i < |db.log| ensures !IsNotice(db.log[i], d) {
      assert db.log[..i] == db.log[..i] && Witnessed(db, db.log[i]);
    }
    NoDeadline(db.log, d);
  }

  lemma {:induction false} NewCaseOwns(db: Db, next: Db, d: string, contacts: seq<Contact>)
    requires Owned(db) && !NoticesTaken(db.notices, d, contacts) && next.attempts == db.attempts && d in next.cases
    requires next.cases == db.cases[d := next.cases[d]] && next.notices == db.notices + InitialNotices(d, contacts)
    requires next.states == db.states && next.replies == db.replies
    ensures Owned(next) && Keeps(db, next)
  {
    forall n | n in db.notices ensures n in next.notices && next.notices[n] == db.notices[n] {
      assert n !in InitialNotices(d, contacts);
    }
  }

  lemma {:induction false} OpenCaseKeeps(db: Db, d: string, trigger: Key, openedAt: int, verified: bool, contacts: seq<Contact>)
    requires Inv(db) && OpenCase(db, d, trigger, openedAt, verified, contacts).Ok?
    ensures Inv(OpenCase(db, d, trigger, openedAt, verified, contacts).value)
  {
    var next := OpenCase(db, d, trigger, openedAt, verified, contacts).value;
    assert RowSound(db, d);
    if next != db {
      NoNoticeYet(db, d);
      NewCaseOwns(db, next, d, contacts);
      assert RowSound(next, d);
      UnloggedKeeps(db, next, d);
    }
  }

  /** Changes to notices that were not sent yet. */
  ghost predicate OnlyUnsentNotices(db: Db, next: Db) {
    && next == db.(notices := next.notices, attempts := next.attempts)
    && next.notices.Keys == db.notices.Keys
    && (forall n | n in db.notices ::
          && next.notices[n].discrepancyId == db.notices[n].discrepancyId
          && (db.notices[n].status == Sent ==> next.notices[n] == db.notices[n])
          && db.notices[n].attempts <= next.notices[n].attempts)
    && (forall a | a in next.attempts - db.attempts :: a.0 in db.notices && a.1 <= next.notices[a.0].attempts)
  }

  lemma {:induction false} UnsentOwned(db: Db, next: Db)
    requires Owned(db) && OnlyUnsentNotices(db, next)
    ensures Owned(next)
  {
    forall n | n in next.notices ensures next.notices[n].discrepancyId in next.cases { assert n in db.notices; }
    forall a | a in next.attempts ensures a.0 in next.notices && a.1 <= next.notices[a.0].attempts {
      assert a in db.attempts || a in next.attempts - db.attempts;
    }
  }

  lemma {:induction false} NoticesOnlyKeep(db: Db, next: Db)
    requires Inv(db) && OnlyUnsentNotices(db, next)
    ensures Inv(next)
  {
    forall x ensures RowSound(next, x) { assert RowSound(db, x); }
    UnsentOwned(db, next);
    UnloggedKeeps(db, next, "");
  }

  lemma {:induction false} EnqueueKeeps(db: Db, id: NoticeId, d: string, key: NoticeKey, wellFormed: bool, contactKnown: bool,
                         nextAttemptAt: Option<int>)
    requires Inv(db) && Enqueue(db, id, d, key, wellFormed, contactKnown, nextAttemptAt).Ok?
    ensures Inv(Enqueue(db, id, d, key, wellFormed, contactKnown, nextAttemptAt).value)
  {
    var next := Enqueue(db, id, d, key, wellFormed, contactKnown, nextAttemptAt).value;
    if next != db {
      assert RowSound(db, d);
      assert RowSound(next, d);
      UnloggedKeeps(db, next, d);
    }
  }

  lemma {:induction false} ClaimKeeps(db: Db, worker: string, now: int, durationMs: int, limit: nat, claimed: seq<NoticeId>)
    requires Inv(db) && ClaimNotices(db, worker, now, durationMs, limit, claimed).Ok?
    ensures Inv(ClaimNotices(db, worker, now, durationMs, limit, claimed).value)
  {
    NoticesOnlyKeep(db, ClaimNotices(db, worker, now, durationMs, limit, claimed).value);
  }

  /** A first delivery to an internal discrepancy, once the notice is marked as sent. */
  lemma {:induction false} BeginKeeps(db: Db, sent: Db, id: NoticeId, at: int)
    requires Inv(db) && id in db.notices && db.notices[id].status != Sent
    requires sent == db.(attempts := db.attempts + {(id, db.notices[id].attempts + 1)},
                         notices := db.notices[id := SentNotice(db.notices[id], at)])
    requires var d := db.notices[id].discrepancyId;
      d in db.cases && d in db.states && BeginWindow(sent, d, id, at).Ok?
    ensures Inv(BeginWindow(sent, db.notices[id].discrepancyId, id, at).value)
  {
    var d := db.notices[id].discrepancyId;
    var next := BeginWindow(sent, d, id, at).value;
    assert RowSound(db, d);
    PublishShape(sent, d, BeginReplyKey(d, id), BeginReply(NoticeText(id)), at);
    UnsentOwned(db, sent);
    assert Owned(next);
    PublishKeeps(db, sent, next, d, BeginReplyKey(d, id), BeginReply(NoticeText(id)), at);
  }

  lemma {:induction false} DeliverKeeps(db: Db, id: NoticeId, lease: Option<(string, nat)>, delivery: Delivery, startedAt: int, completedAt: int)
    requires Inv(db) && Deliver(db, id, lease, delivery, startedAt, completedAt).Ok?
    ensures Inv(Deliver(db, id, lease, delivery, startedAt, completedAt).value)
  {
    var next := Deliver(db, id, lease, delivery, startedAt, completedAt).value;
    if next.log == db.log {
      NoticesOnlyKeep(db, next);
    } else {
      var n := db.notices[id];
      BeginKeeps(db, db.(attempts := db.attempts + {(id, n.attempts + 1)},
                         notices := db.notices[id := SentNotice(n, completedAt)]), id, completedAt);
    }
  }

  lemma {:induction false} RequeueKeeps(db: Db, id: NoticeId, authorized: bool, at: int)
    requires Inv(db) && Requeue(db, id, authorized, at).Ok?
    ensures Inv(Requeue(db, id, authorized, at).value)
  {
    NoticesOnlyKeep(db, Requeue(db, id, authorized, at).value);
  }

  lemma {:induction false} ReplyKeeps(db: Db, d: string, authorized: bool, at: int)
    requires Inv(db) && SubmitReply(db, d, authorized, at).Ok?
    ensures Inv(SubmitReply(db, d, authorized, at).value)
  {
    var prior := if d in db.replies then db.replies[d] else [];
    var replied := db.(replies := db.replies[d := prior + [at]],
                       cases := db.cases[d := db.cases[d].(status := UnderReview)]);
    if db.states[d].reply == AwaitingReply {
      FirstReplyKeeps(db, replied, d, at);
    } else {
      LaterReplyKeeps(db, replied, d);
    }
  }

  lemma {:induction false} LaterReplyKeeps(db: Db, replied: Db, d: string)
    requires Inv(db) && d in db.states && d in db.cases && db.states[d].reply != AwaitingReply
    requires replied == db.(replies := replied.replies, cases := db.cases[d := db.cases[d].(status := UnderReview)])
    requires Keeps(db, replied)
    ensures Inv(replied)
  {
    assert RowSound(db, d);
    assert RowSound(replied, d);
    UnloggedKeeps(db, replied, d);
  }

  lemma {:induction false} FirstReplyKeeps(db: Db, replied: Db, d: string, at: int)
    requires Inv(db) && d in db.states && d in db.cases
    requires var prior := if d in db.replies then db.replies[d] else [];
      replied == db.(replies := db.replies[d := prior + [at]], cases := db.cases[d := db.cases[d].(status := UnderReview)])
    requires Publish(replied, d, ResponseKey(d, |replied.replies[d]|, at), RecordResponse, at).Ok?
    ensures Inv(Publish(replied, d, ResponseKey(d, |replied.replies[d]|, at), RecordResponse, at).value)
  {
    var key := ResponseKey(d, |replied.replies[d]|, at);
    assert RowSound(db, d);
    PublishShape(replied, d, key, RecordResponse, at);
    PublishKeeps(db, replied, Publish(replied, d, key, RecordResponse, at).value, d, key, RecordResponse, at);
  }

  lemma {:induction false} ExpireOneKeeps(db: Db, d: string, now: int)
    requires Inv(db) && d in db.states && d in db.cases && ExpireOne(db, d, now).Ok?
    ensures Inv(ExpireOne(db, d, now).value)
  {
    assert RowSound(db, d);
    PublishShape(db, d, ReplyExpiredKey(d), ExpireReplyWindow, now);
    PublishKeeps(db, db, ExpireOne(db, d, now).value, d, ReplyExpiredKey(d), ExpireReplyWindow, now);
  }

  lemma {:induction false} ExpireRowsKeeps(db: Db, rows: seq<string>, n: nat, now: int)
    requires n <= |rows| && forall d | d in rows :: d in db.states && d in db.cases
    requires Inv(db) && ExpireRows(db, rows, n, now).Ok?
    ensures Inv(ExpireRows(db, rows, n, now).value)
  {
    if n > 0 {
      ExpireRowsKeeps(db, rows, n - 1, now);
      ExpireOneKeeps(ExpireRows(db, rows, n - 1, now).value, rows[n - 1], now);
    }
  }

  lemma {:induction false} DecideKeeps(db: Db, d: string, decision: Decision, at: int)
    requires Inv(db) && d in db.states && d in db.cases && Decide(db, d, decision, at).Ok?
    ensures var next := Decide(db, d, decision, at).value;
      Inv(next.(cases := next.cases[d := next.cases[d].(status := CaseResolved)]))
  {
    assert RowSound(db, d);
    var next := Decide(db, d, decision, at).value;
    var closed := next.(cases := next.cases[d := next.cases[d].(status := CaseResolved)]);
    match decision
    case ApprovePublic =>
      PublishShape(db, d, ApproveKey(d, at), Approve(DIGEST), at);
      PublishKeeps(db, db, closed, d, ApproveKey(d, at), Approve(DIGEST), at);
    case WithholdFlag =>
      PublishShape(db, d, WithholdKey(d, at), Withhold(DIGEST), at);
      PublishKeeps(db, db, closed, d, WithholdKey(d, at), Withhold(DIGEST), at);
  }

  lemma {:induction false} ReviewKeeps(db: Db, d: string, authorized: bool, decision: Decision, allow: bool, at: int)
    requires Inv(db) && Review(db, d, authorized, decision, allow, at).Ok?
    ensures Inv(Review(db, d, authorized, decision, allow, at).value)
  {
    assert RowSound(db, d);
    if db.states[d].reply == ResponseReceived {
      var mid := Publish(db, d, ReviewResponseKey(d, at), ReviewResponse(DIGEST), at).value;
      PublishShape(db, d, ReviewResponseKey(d, at), ReviewResponse(DIGEST), at);
      PublishKeeps(db, db, mid, d, ReviewResponseKey(d, at), ReviewResponse(DIGEST), at);
      DecideKeeps(mid, d, decision, at);
    } else {
      DecideKeeps(db, d, decision, at);
    }
  }

  lemma {:induction false} AmendedRow(db: Db, next: Db, d: string, e: Entry)
    requires RowSound(db, d) && d in db.states && d in db.cases && db.states[d].firstObservedAt <= e.at
    requires e.body.AmendedBody? && next.log == db.log + [e] && next.cases == db.cases
    requires || next.states == db.states
             || (db.states[d].publication == ApprovedPublic
                 && next.states == db.states[d := db.states[d].(publication := Withheld, publicationUpdatedAt := e.at)])
    ensures RowSound(next, d)
  {
    NextDeadline(db.log, e, d);
  }

  lemma {:induction false} CorrectKeeps(db: Db, d: string, authorized: bool, target: Key, retract: bool, at: int)
    requires Inv(db) && Correct(db, d, authorized, target, retract, at).Ok?
    ensures Inv(Correct(db, d, authorized, target, retract, at).value)
  {
    var next := Correct(db, d, authorized, target, retract, at).value;
    var e := Entry(AmendmentKey(d, retract, at), d, at, AmendedBody(retract, target));
    assert RowSound(db, d);
    AmendedRow(db, next, d, e);
    LoggedKeeps(db, next, d, e);
  }

  lemma {:induction false} AmendKeeps(db: Db, text: string, d: string, target: Key, retract: bool, sameIdentity: bool, at: int)
    requires Inv(db) && Amend(db, text, d, target, retract, sameIdentity, at).Ok?
    ensures Inv(Amend(db, text, d, target, retract, sameIdentity, at).value)
  {
    var next := Amend(db, text, d, target, retract, sameIdentity, at).value;
    var e := Entry(TextKey(text), d, at, AmendedBody(retract, target));
    assert RowSound(db, d);
    NextDeadline(db.log, e, d);
    assert RowSound(next, d);
    LoggedKeeps(db, next, d, e);
  }

  // ---- Measurement keeps the invariant -----------------------------------------------------------

  predicate SameStanding(a: State, b: State) {
    a.publication == b.publication && a.reply == b.reply && a.publicationUpdatedAt == b.publicationUpdatedAt
  }

  function Resets(e: MeasurementEvent): bool { e.kind == Opened || (e.kind == Observed && e.after.severity == Info) }

  /** The row a measurement writes, and the one or two events it logs. */
  lemma {:induction false} MeasuredRow(prior: Option<State>, d: string, sourceId: string, namedParty: bool, version: string, cycle: Cycle,
                    a: Advanced, row: State)
    requires prior.Some? ==> Valid(prior.value) && prior.value.discrepancyId == d
    requires Advance(prior, d, sourceId, namedParty, version, cycle) == Ok(a) && a.ignored.None? && a.state.Some?
    requires row == if prior.Some? then a.state.value.(firstObservedAt := prior.value.firstObservedAt) else a.state.value
    ensures Valid(row) && row.discrepancyId == d && row.namedParty == namedParty && row.firstObservedAt <= cycle.at
    ensures prior.Some? ==> prior.value.namedParty == namedParty && prior.value.firstObservedAt == row.firstObservedAt
    ensures |a.events| <= 2 && forall e | e in a.events :: e.discrepancyId == d && e.at == cycle.at
    ensures if |a.events| == 1 && Resets(a.events[0]) then row.publication == Internal
            else prior.Some? && SameStanding(row, prior.value) && forall e | e in a.events :: !Resets(e)
    ensures |a.events| == 2 ==> a.events == [a.events[0], a.events[1]]
    ensures |a.events| == 1 ==> a.events == [a.events[0]]
  {}

  lemma {:induction false} RowAfterMeasurement(db: Db, next: Db, d: string, prior: Option<State>, row: State, e: Entry)
    requires RowSound(db, d) && prior == (if d in db.states then Some(db.states[d]) else None)
    requires Valid(row) && row.discrepancyId == d && (prior.Some? ==> prior.value.namedParty == row.namedParty)
    requires e.discrepancyId == d && e.body.MeasuredBody?
    requires if Resets(e.body.event) then row.publication == Internal else prior.Some? && SameStanding(row, prior.value)
    requires next.states == db.states[d := row] && next.cases == db.cases && next.log == db.log + [e]
    ensures RowSound(next, d)
  {
    NextDeadline(db.log, e, d);
  }

  lemma {:induction false} LogEventsShape(db: Db, events: seq<MeasurementEvent>)
    requires 1 <= |events| <= 2 && events == (if |events| == 1 then [events[0]] else [events[0], events[1]])
    requires LogEvents(db, events).Ok?
    ensures var next := LogEvents(db, events).value;
      && !HasKey(db.log, TextKey(events[0].id))
      && (|events| == 1 ==> next == db.(log := db.log + [MeasurementEntry(events[0])]))
      && (|events| == 2 ==>
            && var mid := db.log + [MeasurementEntry(events[0])];
               !HasKey(mid, TextKey(events[1].id)) && next == db.(log := mid + [MeasurementEntry(events[1])]))
  {
    assert [events[0]][..0] == [];
    assert LogEvents(db, []) == Ok(db);
    if |events| == 2 {
      assert events[..1] == [events[0]];
      assert LogEvents(db, [events[0]]) == Append(db, MeasurementEntry(events[0]));
    }
  }

  lemma {:induction false} OneEventKeeps(db: Db, next: Db, d: string, prior: Option<State>, row: State, e: Entry)
    requires Inv(db) && prior == (if d in db.states then Some(db.states[d]) else None)
    requires Valid(row) && row.discrepancyId == d && row.firstObservedAt <= e.at
    requires prior.Some? ==> prior.value.namedParty == row.namedParty && prior.value.firstObservedAt == row.firstObservedAt
    requires e.discrepancyId == d && e.body.MeasuredBody? && e.key.TextKey? && !HasKey(db.log, e.key)
    requires if Resets(e.body.event) then row.publication == Internal else prior.Some? && SameStanding(row, prior.value)
    requires next == db.(states := db.states[d := row], log := db.log + [e])
    ensures Inv(next)
  {
    assert RowSound(db, d);
    RowAfterMeasurement(db, next, d, prior, row, e);
    LoggedKeeps(db, next, d, e);
  }

  lemma {:induction false} QuietRowKeeps(db: Db, next: Db, d: string, row: State)
    requires Inv(db) && d in db.states && next == db.(states := db.states[d := row])
    requires Valid(row) && row.discrepancyId == d && SameStanding(row, db.states[d])
    requires row.namedParty == db.states[d].namedParty && row.firstObservedAt == db.states[d].firstObservedAt
    ensures Inv(next)
  {
    assert RowSound(db, d);
    assert RowSound(next, d);
    UnloggedKeeps(db, next, d);
  }

  lemma {:induction false} MeasureKeeps(db: Db, d: string, sourceId: string, namedParty: bool, version: string, cycle: Cycle)
    requires Inv(db) && Measure(db, d, sourceId, namedParty, version, cycle).Ok?
    ensures Inv(Measure(db, d, sourceId, namedParty, version, cycle).value)
  {
    var next := Measure(db, d, sourceId, namedParty, version, cycle).value;
    var prior := if d in db.states then Some(db.states[d]) else None;
    var a := Advance(prior, d, sourceId, namedParty, version, cycle).value;
    assert RowSound(db, d);
    if a.ignored.None? && a.state.Some? {
      var row := if prior.Some? then a.state.value.(firstObservedAt := prior.value.firstObservedAt) else a.state.value;
      MeasuredRow(prior, d, sourceId, namedParty, version, cycle, a, row);
      var stored := db.(states := db.states[d := row]);
      assert LogEvents(stored, a.events) == Ok(next);
      RowAndEventsKeep(db, stored, next, d, prior, row, a.events, cycle.at);
    }
  }

  lemma {:induction false} RowAndEventsKeep(db: Db, stored: Db, next: Db, d: string, prior: Option<State>, row: State,
                         events: seq<MeasurementEvent>, at: int)
    requires Inv(db) && prior == (if d in db.states then Some(db.states[d]) else None)
    requires stored == db.(states := db.states[d := row]) && LogEvents(stored, events) == Ok(next)
    requires Valid(row) && row.discrepancyId == d && row.firstObservedAt <= at
    requires prior.Some? ==> prior.value.namedParty == row.namedParty && prior.value.firstObservedAt == row.firstObservedAt
    requires |events| <= 2 && forall e | e in events :: e.discrepancyId == d && e.at == at
    requires if |events| == 1 && Resets(events[0]) then row.publication == Internal
             else prior.Some? && SameStanding(row, prior.value) && forall e | e in events :: !Resets(e)
    requires |events| == 2 ==> events == [events[0], events[1]]
    requires |events| == 1 ==> events == [events[0]]
    ensures Inv(next)
  {
    if events == [] {
      QuietRowKeeps(db, next, d, row);
    } else {
      LogEventsShape(stored, events);
      var mid := stored.(log := stored.log + [MeasurementEntry(events[0])]);
      assert events[0] in events;
      OneEventKeeps(db, mid, d, prior, row, MeasurementEntry(events[0]));
      if |events| == 2 {
        assert events[1] in events;
        assert mid.states[d := row] == mid.states;
        OneEventKeeps(mid, next, d, Some(row), row, MeasurementEntry(events[1]));
      }
    }
  }

  lemma {:induction false} PerformKeeps(db: Db, step: Step)
    requires Inv(db) && Perform(db, step).Ok?
    ensures Inv(Perform(db, step).value)
  {
    match step
    case OpenCaseStep(d, trigger, openedAt, verified, contacts) => OpenCaseKeeps(db, d, trigger, openedAt, verified, contacts);
    case EnqueueStep(id, d, key, wellFormed, contactKnown, nextAttemptAt) =>
      EnqueueKeeps(db, id, d, key, wellFormed, contactKnown, nextAttemptAt);
    case ClaimStep(worker, now, durationMs, limit, claimed) => ClaimKeeps(db, worker, now, durationMs, limit, claimed);
    case DeliverStep(id, lease, delivery, startedAt, completedAt) => DeliverKeeps(db, id, lease, delivery, startedAt, completedAt);
    case RequeueStep(id, authorized, at) => RequeueKeeps(db, id, authorized, at);
    case ReplyStep(d, authorized, at) => ReplyKeeps(db, d, authorized, at);
    case ExpireStep(now, limit, due) => ExpireRowsKeeps(db, due, |due|, now);
    case ReviewStep(d, authorized, decision, allow, at) => ReviewKeeps(db, d, authorized, decision, allow, at);
    case CorrectStep(d, authorized, target, retract, at) => CorrectKeeps(db, d, authorized, target, retract, at);
    case AmendStep(text, d, target, retract, sameIdentity, at) => AmendKeeps(db, text, d, target, retract, sameIdentity, at);
    case MeasureStep(d, sourceId, namedParty, version, cycle) => MeasureKeeps(db, d, sourceId, namedParty, version, cycle);
  }

  lemma {:induction false} RunKeeps(db: Db, steps: seq<Step>)
    requires Inv(db)
    ensures Inv(Run(db, steps))
  {
    if steps != [] {
      var before := Run(db, steps[..|steps| - 1]);
      RunKeeps(db, steps[..|steps| - 1]);
      if Perform(before, steps[|steps| - 1]).Ok? { PerformKeeps(before, steps[|steps| - 1]); }
    }
  }

  lemma {:induction false} ReachableInv(steps: seq<Step>)
    ensures Inv(Run(EMPTY, steps))
  {
    assert forall d :: RowSound(EMPTY, d);
    RunKeeps(EMPTY, steps);
  }
}
