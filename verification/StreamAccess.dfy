/** Who may go on reading the stream, what its error chunks say, and when a slow or quiet consumer is dropped or reminded. */
module StreamAccess {
  import opened Outcomes
  import opened SnapshotStream
  import opened StreamLaws

  // ---- Errors ------------------------------------------------------------------------------------

  predicate HasError(sent: seq<Chunk>) { exists i :: 0 <= i < |sent| && sent[i].ErrorChunk? }

  /** The stream opened with the retry hint; an error is the last chunk of a closed stream. */
  ghost predicate ErrorsLast(s: State) {
    && s.sent != [] && s.sent[0] == RetryChunk
    && (forall i | 0 <= i < |s.sent| - 1 :: !s.sent[i].ErrorChunk?)
    && (HasError(s.sent) ==> s.closed)
  }

  lemma {:induction false} DrainErrors(s: State, at: int)
    requires ErrorsLast(s)
    ensures ErrorsLast(Drain(s, at)) && HasError(Drain(s, at).sent) == HasError(s.sent)
    ensures Drain(s, at).closed == s.closed && Drain(s, at).phase == s.phase && Drain(s, at).authorizedAt == s.authorizedAt
    ensures Drain(s, at).backpressurePolls == s.backpressurePolls
    decreases |s.pending|
  {
    if !s.closed && s.pending != [] && s.room > 0 {
      var one := DrainOne(s, at);
      assert one.sent == s.sent + [EventChunk(s.pending[0])];
      if HasError(s.sent) { assert false; }
      DrainErrors(one, at);
    }
  }

  lemma {:induction false} FailEnds(s: State, code: Code)
    requires ErrorsLast(s) && !s.closed
    ensures Fail(s, code).sent == s.sent + [ErrorChunk(code)] && Fail(s, code).closed && Fail(s, code).phase.Stopped?
    ensures ErrorsLast(Fail(s, code))
  {
    forall i | 0 <= i < |s.sent| ensures !s.sent[i].ErrorChunk? { if s.sent[i].ErrorChunk? { assert HasError(s.sent); } }
  }

  lemma {:induction false} FailClosed(s: State, code: Code)
    requires s.closed
    ensures Fail(s, code) == s.(phase := Stopped)
  {}

  lemma {:induction false} FinishErrors(s: State, config: Config, at: int)
    requires ErrorsLast(s) && s.phase.Served?
    ensures ErrorsLast(PollFinish(s, config, at))
  {
    match s.phase.answer
    case Err(code) => if s.closed { FailClosed(s, code); } else { FailEnds(s, code); }
    case Ok(events) =>
      var loaded := s.(pending := s.pending + events);
      DrainErrors(loaded, at);
      BeatErrors(Drain(loaded, at), config, s.phase.now);
  }

  lemma {:induction false} BeatErrors(s: State, config: Config, now: int)
    requires ErrorsLast(s)
    ensures ErrorsLast(Beat(s, config, now))
  {
    if !s.closed { forall i | 0 <= i < |s.sent| ensures !s.sent[i].ErrorChunk? { if s.sent[i].ErrorChunk? { assert HasError(s.sent); } } }
  }

  lemma {:induction false} AuthorizedErrors(s: State, config: Config, decision: Decision)
    requires ErrorsLast(s) && s.phase.Authorizing?
    ensures ErrorsLast(PollAuthorized(s, config, decision))
  {
    var t := s.(authorizedAt := s.phase.now);
    match decision
    case Threw => if s.closed { FailClosed(s, StreamUnavailable); } else { FailEnds(s, StreamUnavailable); }
    case Denied => if s.closed { FailClosed(t, AccessRevoked); } else { FailEnds(t, AccessRevoked); }
    case Allowed => DrainErrors(t, s.phase.now);
  }

  lemma {:induction false} TakeErrors(w: World, config: Config, step: Step)
    requires ErrorsLast(w.stream)
    ensures ErrorsLast(Take(w, config, step).stream)
  {
    match step
    case EnterStep(now, _) => DrainErrors(w.stream, now);
    case AuthorizedStep(decision) => if w.stream.phase.Authorizing? { AuthorizedErrors(w.stream, config, decision); }
    case FinishStep(at) => if w.stream.phase.Served? { FinishErrors(w.stream, config, at); }
    case PullStep(at) => DrainErrors(w.stream, at);
    case _ =>
  }

  lemma {:induction false} RunErrors(w: World, config: Config, steps: seq<Step>)
    requires ErrorsLast(w.stream)
    ensures ErrorsLast(Run(w, config, steps).stream)
  {
    if steps != [] {
      RunErrors(w, config, steps[..|steps| - 1]);
      TakeErrors(Run(w, config, steps[..|steps| - 1]), config, steps[|steps| - 1]);
    }
  }

  /** In every run of a connection the retry hint is first, and an error is the last chunk of a stream that is closed. */
  lemma {:induction false} ErrorIsLast(log: seq<Event>, lastEventId: Option<nat>, config: Config, at: int, steps: seq<Step>)
    requires Connect(log, lastEventId, config, at).Ok?
    ensures ErrorsLast(Run(Connect(log, lastEventId, config, at).value, config, steps).stream)
  {
    var w := Connect(log, lastEventId, config, at).value;
    assert w.stream.sent == [RetryChunk];
    RunErrors(w, config, steps);
  }

  // ---- Authorization -----------------------------------------------------------------------------

  predicate Due(s: State, config: Config, now: int) { config.authorizes && now - s.authorizedAt >= config.reauthorizeMs }

  /**
   * A decision other than allowed ends the stream: it is closed, exactly one chunk was added, the error that says why, and
   * nothing is sent in any later run.
   */
  lemma {:induction false} DenialEnds(w: World, config: Config, decision: Decision, more: seq<Step>)
    requires w.stream.phase.Authorizing? && !w.stream.closed && decision != Allowed
    ensures var v := Run(Take(w, config, AuthorizedStep(decision)), config, more);
      && v.stream.closed
      && v.stream.sent == w.stream.sent + [ErrorChunk(if decision == Denied then AccessRevoked else StreamUnavailable)]
      && Delivered(v.stream.sent) == Delivered(w.stream.sent)
  {
    var ended := Take(w, config, AuthorizedStep(decision));
    ClosedIsFinal(ended, config, more);
    DeliveredStep(w.stream.sent, ErrorChunk(if decision == Denied then AccessRevoked else StreamUnavailable));
  }

  /** A poll whose authorization is due does not read: it waits for a decision, or ends. */
  lemma {:induction false} DuePollsAuthorize(w: World, config: Config, now: int, aborted: bool)
    requires w.stream.phase.Waiting? && Due(w.stream, config, now)
    ensures var v := Take(w, config, EnterStep(now, aborted)).stream;
      && v.sent == w.stream.sent && v.pending == w.stream.pending && v.authorizedAt == w.stream.authorizedAt
      && v.phase == if w.stream.closed || aborted then Stopped else Authorizing(now)
  {}

  /** The authorization is recent enough for a poll that began at `now`. */
  predicate Fresh(s: State, config: Config, now: int) { !Due(s, config, now) || s.authorizedAt == now }

  /** A poll that reads, or holds what it read, is authorized. */
  ghost predicate ReadsAuthorized(s: State, config: Config) {
    match s.phase
    case Reading(now, _) => Fresh(s, config, now)
    case Served(now, _) => Fresh(s, config, now)
    case _ => true
  }

  lemma {:induction false} DrainLeavesPoll(s: State, at: int)
    ensures Drain(s, at).phase == s.phase && Drain(s, at).authorizedAt == s.authorizedAt && Drain(s, at).closed == s.closed
    ensures Drain(s, at).backpressurePolls == s.backpressurePolls
    decreases |s.pending|
  {
    if !s.closed && s.pending != [] && s.room > 0 { DrainLeavesPoll(DrainOne(s, at), at); }
  }

  lemma {:induction false} ProceedReads(s: State, config: Config, now: int)
    requires Fresh(s, config, now) && (s.phase.Waiting? || s.phase.Authorizing?)
    ensures ReadsAuthorized(PollProceed(s, config, now), config)
    ensures PollProceed(s, config, now).authorizedAt == s.authorizedAt
  {
    DrainLeavesPoll(s, now);
  }

  lemma {:induction false} FinishStops(s: State, config: Config, at: int)
    requires s.phase.Served?
    ensures PollFinish(s, config, at).phase.Stopped? || PollFinish(s, config, at).phase.Waiting?
    ensures PollFinish(s, config, at).authorizedAt == s.authorizedAt
  {
    if s.phase.answer.Ok? { DrainLeavesPoll(s.(pending := s.pending + s.phase.answer.value), at); }
  }

  lemma {:induction false} TakeReads(w: World, config: Config, step: Step)
    requires ReadsAuthorized(w.stream, config)
    ensures ReadsAuthorized(Take(w, config, step).stream, config)
    ensures Take(w, config, step).stream.authorizedAt != w.stream.authorizedAt ==>
              && step.AuthorizedStep? && !step.decision.Threw? && w.stream.phase.Authorizing?
              && Take(w, config, step).stream.authorizedAt == w.stream.phase.now
              && (step.decision == Denied ==> Take(w, config, step).stream.phase.Stopped?)
  {
    var s := w.stream;
    match step
    case EnterStep(now, _) => if s.phase.Waiting? && !Due(s, config, now) { ProceedReads(s, config, now); }
    case AuthorizedStep(decision) =>
      if s.phase.Authorizing? && decision == Allowed { ProceedReads(s.(authorizedAt := s.phase.now), config, s.phase.now); }
    case FinishStep(at) => if s.phase.Served? { FinishStops(s, config, at); }
    case PullStep(at) => DrainLeavesPoll(s, at);
    case _ =>
  }

  /**
   * In every run a poll reads the log only with an authorization that was not due when the poll began, or that was
   * renewed for it; an authorization is renewed by an allowed decision alone, and a denied one stops the poll.
   */
  lemma {:induction false} ReadsAreAuthorized(log: seq<Event>, lastEventId: Option<nat>, config: Config, at: int, steps: seq<Step>)
    requires Connect(log, lastEventId, config, at).Ok?
    ensures ReadsAuthorized(Run(Connect(log, lastEventId, config, at).value, config, steps).stream, config)
  {
    if steps != [] {
      ReadsAreAuthorized(log, lastEventId, config, at, steps[..|steps| - 1]);
      TakeReads(Run(Connect(log, lastEventId, config, at).value, config, steps[..|steps| - 1]), config, steps[|steps| - 1]);
    }
  }

  /** The last time access was granted: when the stream opened, or when the poll began whose check was allowed last. */
  function GrantedAt(w: World, config: Config, at: int, steps: seq<Step>): int {
    if steps == [] then at
    else
      var prefix, step := steps[..|steps| - 1], steps[|steps| - 1];
      var s := Run(w, config, prefix).stream;
      if step == AuthorizedStep(Allowed) && s.phase.Authorizing? then s.phase.now else GrantedAt(w, config, at, prefix)
  }

  ghost predicate Remembers(s: State, granted: int) { s.closed || s.authorizedAt == granted }

  lemma {:induction false} TakeRemembers(w: World, config: Config, step: Step, granted: int)
    requires Remembers(w.stream, granted) && ReadsAuthorized(w.stream, config)
    ensures var s := w.stream;
      Remembers(Take(w, config, step).stream,
                if step == AuthorizedStep(Allowed) && s.phase.Authorizing? then s.phase.now else granted)
  {
    TakeReads(w, config, step);
    StaysClosed(w, config, step);
    if step == AuthorizedStep(Allowed) && w.stream.phase.Authorizing? {
      ProceedReads(w.stream.(authorizedAt := w.stream.phase.now), config, w.stream.phase.now);
    }
  }

  lemma {:induction false} StaysClosed(w: World, config: Config, step: Step)
    ensures w.stream.closed ==> Take(w, config, step).stream.closed
    ensures w.stream.phase.Authorizing? && step == AuthorizedStep(Denied) ==> Take(w, config, step).stream.closed
  {
    if w.stream.closed {
      ClosedIsFinal(w, config, [step]);
      assert [step][..0] == [] && Run(w, config, []) == w;
    }
  }

  /**
   * So in every run of an open stream the poll at the log began less than the interval after access was last granted,
   * or is the poll it was granted for.
   */
  lemma {:induction false} NoReadWithoutGrant(log: seq<Event>, lastEventId: Option<nat>, config: Config, at: int, steps: seq<Step>)
    requires Connect(log, lastEventId, config, at).Ok?
    ensures var w := Connect(log, lastEventId, config, at).value; var s := Run(w, config, steps).stream;
      var granted := GrantedAt(w, config, at, steps);
      && Remembers(s, granted)
      && (!s.closed && config.authorizes && s.phase.Reading? ==>
            s.phase.now - granted < config.reauthorizeMs || s.phase.now == granted)
  {
    var w := Connect(log, lastEventId, config, at).value;
    ReadsAreAuthorized(log, lastEventId, config, at, steps);
    if steps != [] {
      NoReadWithoutGrant(log, lastEventId, config, at, steps[..|steps| - 1]);
      ReadsAreAuthorized(log, lastEventId, config, at, steps[..|steps| - 1]);
      TakeRemembers(Run(w, config, steps[..|steps| - 1]), config, steps[|steps| - 1], GrantedAt(w, config, at, steps[..|steps| - 1]));
    }
  }

  // ---- What a poll at the log ends in ------------------------------------------------------------

  function Answered(w: World, config: Config, available: bool, at: int): World {
    Take(Take(w, config, ServeStep(available)), config, FinishStep(at))
  }

  /** A database failure, or more events than the window replays, ends the stream with the code that says so. */
  lemma {:induction false} FailedReadEnds(w: World, config: Config, available: bool, at: int)
    requires w.stream.phase.Reading? && !w.stream.closed
    requires !available || |After(w.log, w.stream.phase.from)| > config.replayLimit
    ensures var v := Answered(w, config, available, at).stream;
      && v.closed && v.phase.Stopped?
      && v.sent == w.stream.sent + [ErrorChunk(if available then WindowExceeded else StreamUnavailable)]
  {}

  lemma {:induction false} DrainMoves(s: State, at: int)
    ensures Delivered(Drain(s, at).sent) + Drain(s, at).pending == Delivered(s.sent) + s.pending
    ensures !s.closed && s.room > 0 ==> Drain(s, at).pending == [] || Drain(s, at).room <= 0
    decreases |s.pending|
  {
    if !s.closed && s.pending != [] && s.room > 0 {
      DeliveredStep(s.sent, EventChunk(s.pending[0]));
      DrainMoves(DrainOne(s, at), at);
      assert Delivered(s.sent) + s.pending == Delivered(s.sent) + [s.pending[0]] + s.pending[1..];
    }
  }

  /** A read within the window leaves the stream open, its events delivered or pending, and schedules the next poll. */
  lemma {:induction false} GoodReadGoesOn(w: World, config: Config, at: int)
    requires w.stream.phase.Reading? && !w.stream.closed && |After(w.log, w.stream.phase.from)| <= config.replayLimit
    ensures var v := Answered(w, config, true, at).stream;
      && !v.closed && v.phase.Waiting?
      && Delivered(v.sent) + v.pending == Delivered(w.stream.sent) + w.stream.pending + After(w.log, w.stream.phase.from)
  {
    var events, now := After(w.log, w.stream.phase.from), w.stream.phase.now;
    var loaded := w.stream.(phase := Served(now, Ok(events)), pending := w.stream.pending + events);
    DrainMoves(loaded, at);
    DrainLeavesPoll(loaded, at);
    DeliveredStep(Drain(loaded, at).sent, HeartbeatChunk(now));
    assert Delivered(w.stream.sent) + (w.stream.pending + events) == Delivered(w.stream.sent) + w.stream.pending + events;
  }

  /** A quiet poll sends one heartbeat when the last event or heartbeat is as old as the interval, else nothing. */
  lemma {:induction false} QuietPollBeats(w: World, config: Config, at: int)
    requires w.stream.phase.Reading? && !w.stream.closed && w.stream.pending == [] && After(w.log, w.stream.phase.from) == []
    ensures var s := w.stream; var v := Answered(w, config, true, at).stream; var now := s.phase.now;
      if now - s.heartbeatAt >= config.heartbeatMs then v.sent == s.sent + [HeartbeatChunk(now)] && v.heartbeatAt == now
      else v.sent == s.sent && v.heartbeatAt == s.heartbeatAt
  {
    assert w.stream.pending + [] == [];
  }

  /** A delivered event counts as a sign of life. */
  lemma {:induction false} DrainBeats(s: State, at: int)
    ensures Drain(s, at).heartbeatAt == if Drain(s, at).sent != s.sent then at else s.heartbeatAt
    ensures |s.sent| <= |Drain(s, at).sent|
    decreases |s.pending|
  {
    if !s.closed && s.pending != [] && s.room > 0 { DrainBeats(DrainOne(s, at), at); }
  }

  // ---- Slow consumers ----------------------------------------------------------------------------

  /** The queue is full over pending events, and the poll waits for its timer. */
  predicate Slow(s: State) { s.phase.Waiting? && !s.closed && s.pending != [] && s.room <= 0 }

  /** Polls at the given times, with nothing consumed between. */
  function Polls(times: seq<int>): seq<Step> {
    if times == [] then [] else Polls(times[..|times| - 1]) + [EnterStep(times[|times| - 1], false)]
  }

  lemma {:induction false} RunOne(w: World, config: Config, steps: seq<Step>, step: Step)
    ensures Run(w, config, steps + [step]) == Take(Run(w, config, steps), config, step)
  {
    assert (steps + [step])[..|steps|] == steps;
  }

  /**
   * A consumer that takes nothing is dropped at the poll that makes up the permitted number, counted from the last poll
   * that found it ready, and not before.
   */
  lemma {:induction false} SlowConsumerIsDropped(w: World, config: Config, times: seq<int>)
    requires Slow(w.stream) && w.stream.backpressurePolls < config.maxBackpressurePolls
    requires forall t | t in times :: !Due(w.stream, config, t)
    ensures var v := Run(w, config, Polls(times)).stream;
      if w.stream.backpressurePolls + |times| < config.maxBackpressurePolls
      then v == w.stream.(backpressurePolls := w.stream.backpressurePolls + |times|)
      else v.closed && v.phase.Stopped? && v.sent == w.stream.sent
  {
    if times != [] {
      var prefix, t := times[..|times| - 1], times[|times| - 1];
      assert t in times;
      SlowConsumerIsDropped(w, config, prefix);
      RunOne(w, config, Polls(prefix), EnterStep(t, false));
      var mid := Run(w, config, Polls(prefix));
    }
  }

  /** What a poll does when it need not wait for a decision, or was allowed: read, or count the slow consumer. */
  ghost predicate Polled(before: State, after: State, config: Config, now: int) {
    var drained := Drain(before, now);
    if drained.pending == [] && drained.room > 0
    then after == drained.(phase := Reading(now, drained.cursor), backpressurePolls := 0)
    else
      && after.backpressurePolls == before.backpressurePolls + 1 && after.sent == drained.sent && after.pending == drained.pending
      && (if after.backpressurePolls >= config.maxBackpressurePolls then after.closed && after.phase.Stopped?
          else after.closed == before.closed && after.phase.Waiting?)
  }

  /** A poll reaches the log only with nothing pending and room in the queue, and starts the count anew. */
  lemma {:induction false} ReadyPollReads(w: World, config: Config, now: int)
    requires w.stream.phase.Waiting? && !w.stream.closed && !Due(w.stream, config, now)
    ensures Polled(w.stream, Take(w, config, EnterStep(now, false)).stream, config, now)
  {
    DrainLeavesPoll(w.stream, now);
  }

  /** An allowed poll goes on as if its authorization had not been due. */
  lemma {:induction false} AllowedPollReads(w: World, config: Config)
    requires w.stream.phase.Authorizing? && !w.stream.closed
    ensures var now := w.stream.phase.now; var after := Take(w, config, AuthorizedStep(Allowed)).stream;
      Polled(w.stream.(authorizedAt := now), after, config, now) && after.authorizedAt == now
  {
    DrainLeavesPoll(w.stream.(authorizedAt := w.stream.phase.now), w.stream.phase.now);
  }

  // ---- Opening and ending ------------------------------------------------------------------------

  /** A connection opens with the retry hint in its queue, waiting for its first poll. */
  lemma {:induction false} OpensWaiting(log: seq<Event>, lastEventId: Option<nat>, config: Config, at: int)
    requires Connect(log, lastEventId, config, at).Ok?
    ensures var s := Connect(log, lastEventId, config, at).value.stream;
      && s.phase.Waiting? && !s.closed && s.sent == [RetryChunk] && s.room == 0 && s.backpressurePolls == 0
      && s.heartbeatAt == s.authorizedAt == at
  {}

  /** An abort or a cancel closes the stream without a word, and stops the poll that waits for its timer. */
  lemma {:induction false} AbortEnds(w: World, config: Config, step: Step)
    requires step == AbortStep || step == CancelStep
    ensures var s := Take(w, config, step).stream;
      && s.closed && s.sent == w.stream.sent
      && (!w.stream.closed ==> s.phase == if w.stream.phase.Waiting? then Stopped else w.stream.phase)
  {}

  /** No poll of a closed stream asks for a decision or for the log; the next one stops. */
  lemma {:induction false} ClosedPollStops(w: World, config: Config, now: int, aborted: bool)
    requires w.stream.phase.Waiting? && (w.stream.closed || aborted)
    ensures var s := Take(w, config, EnterStep(now, aborted)).stream; s.closed && s.phase.Stopped? && s.sent == w.stream.sent
  {}

  lemma {:induction false} StepStops(w: World, config: Config, step: Step)
    requires w.stream.phase.Stopped? ==> w.stream.closed
    ensures Take(w, config, step).stream.phase.Stopped? ==> Take(w, config, step).stream.closed
    ensures w.stream.phase.Stopped? ==> Take(w, config, step).stream.phase.Stopped?
  {
    var s := w.stream;
    match step
    case EnterStep(now, _) => if s.phase.Waiting? { DrainLeavesPoll(s, now); }
    case AuthorizedStep(_) => if s.phase.Authorizing? { DrainLeavesPoll(s.(authorizedAt := s.phase.now), s.phase.now); }
    case FinishStep(at) => if s.phase.Served? { FinishStops(s, config, at); FinishEnds(s, config, at); }
    case PullStep(at) => DrainLeavesPoll(s, at);
    case _ =>
  }

  lemma {:induction false} FinishEnds(s: State, config: Config, at: int)
    requires s.phase.Served?
    ensures PollFinish(s, config, at).phase.Stopped? ==> PollFinish(s, config, at).closed
  {}

  /** In every run a poll that stopped is never taken up again, and only a closed stream has stopped. */
  lemma {:induction false} StoppedForGood(w: World, config: Config, steps: seq<Step>)
    requires w.stream.phase.Stopped? ==> w.stream.closed
    ensures var s := Run(w, config, steps).stream;
      (s.phase.Stopped? ==> s.closed) && (w.stream.phase.Stopped? ==> s.phase.Stopped?)
  {
    if steps != [] {
      StoppedForGood(w, config, steps[..|steps| - 1]);
      StepStops(Run(w, config, steps[..|steps| - 1]), config, steps[|steps| - 1]);
    }
  }

  // ---- The queue ---------------------------------------------------------------------------------

  lemma {:induction false} DrainRoom(s: State, at: int)
    ensures Drain(s, at).room + |Drain(s, at).sent| == s.room + |s.sent|
    ensures s.room >= 0 ==> 0 <= Drain(s, at).room
    decreases |s.pending|
  {
    if !s.closed && s.pending != [] && s.room > 0 { DrainRoom(DrainOne(s, at), at); }
  }

  /** Chunks sent and room left add up to the chunks the consumer took and one more. */
  lemma {:induction false} StepRoom(w: World, config: Config, step: Step)
    requires w.stream.room <= 1
    ensures var v := Take(w, config, step).stream;
      && v.room <= 1
      && v.room + |v.sent| == w.stream.room + |w.stream.sent| + (if step.ConsumeStep? && w.stream.room < 1 then 1 else 0)
  {
    var s := w.stream;
    match step
    case EnterStep(now, _) => DrainRoom(s, now); DrainGrows(s, now);
    case AuthorizedStep(_) =>
      if s.phase.Authorizing? {
        DrainRoom(s.(authorizedAt := s.phase.now), s.phase.now);
        DrainGrows(s.(authorizedAt := s.phase.now), s.phase.now);
      }
    case FinishStep(at) => if s.phase.Served? { FinishRoom(s, config, at); }
    case PullStep(at) => DrainRoom(s, at); DrainGrows(s, at);
    case _ =>
  }

  lemma {:induction false} DrainGrows(s: State, at: int)
    ensures |s.sent| <= |Drain(s, at).sent|
    decreases |s.pending|
  {
    if !s.closed && s.pending != [] && s.room > 0 { DrainGrows(DrainOne(s, at), at); }
  }

  lemma {:induction false} FinishRoom(s: State, config: Config, at: int)
    requires s.phase.Served?
    ensures var v := PollFinish(s, config, at); v.room + |v.sent| == s.room + |s.sent| && |s.sent| <= |v.sent|
  {
    if s.phase.answer.Ok? {
      DrainRoom(s.(pending := s.pending + s.phase.answer.value), at);
      DrainGrows(s.(pending := s.pending + s.phase.answer.value), at);
    }
  }

  function Taken(w: World, config: Config, steps: seq<Step>): nat {
    if steps == [] then 0
    else
      var prefix := steps[..|steps| - 1];
      Taken(w, config, prefix) + (if steps[|steps| - 1].ConsumeStep? && Run(w, config, prefix).stream.room < 1 then 1 else 0)
  }

  /** In every run of a connection the room is what the consumer took less what was sent behind the retry hint, at most one. */
  lemma {:induction false} RoomIsCounted(log: seq<Event>, lastEventId: Option<nat>, config: Config, at: int, steps: seq<Step>)
    requires Connect(log, lastEventId, config, at).Ok?
    ensures var w := Connect(log, lastEventId, config, at).value; var s := Run(w, config, steps).stream;
      s.room <= 1 && s.room + |s.sent| == 1 + Taken(w, config, steps)
  {
    if steps != [] {
      RoomIsCounted(log, lastEventId, config, at, steps[..|steps| - 1]);
      StepRoom(Run(Connect(log, lastEventId, config, at).value, config, steps[..|steps| - 1]), config, steps[|steps| - 1]);
    }
  }
}
