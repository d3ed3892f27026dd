/** What the consumer of the stream receives, over every interleaving of appends, polls, suspensions and pulls. */
module StreamLaws {
  import opened Outcomes
  import opened Decimals
  import opened SnapshotStream

  // ---- The log by position -----------------------------------------------------------------------

  predicate Increasing(log: seq<Event>) {
    && (forall i | 0 <= i < |log| :: log[i].id > 0)
    && (forall i, j | 0 <= i < j < |log| :: log[i].id < log[j].id)
  }

  /** The first `k` events have ids up to `id`, the others larger ones. */
  predicate Splits(log: seq<Event>, id: nat, k: nat) {
    k <= |log| && (forall i | 0 <= i < k :: log[i].id <= id) && (forall i | k <= i < |log| :: log[i].id > id)
  }

  lemma {:induction false} AfterIsSuffix(log: seq<Event>, id: nat, k: nat)
    requires Splits(log, id, k)
    ensures After(log, id) == log[k..]
  {
    if log != [] {
      var n := |log| - 1;
      var prefix := log[..n];
      if k == |log| {
        AfterIsSuffix(prefix, id, n);
        assert log[k..] == [] && prefix[n..] == [];
      } else {
        AfterIsSuffix(prefix, id, k);
        assert log[k..] == prefix[k..] + [log[n]];
      }
    }
  }

  lemma {:induction false} SplitPoint(log: seq<Event>, id: nat) returns (k: nat)
    requires Increasing(log)
    ensures Splits(log, id, k)
  {
    k := |log|;
    while k > 0 && log[k - 1].id > id
      invariant 0 <= k <= |log| && forall i | k <= i < |log| :: log[i].id > id
    {
      k := k - 1;
    }
  }

  lemma {:induction false} LatestIsLast(log: seq<Event>)
    requires Increasing(log)
    ensures LatestId(log) == if log == [] then 0 else log[|log| - 1].id
    ensures Splits(log, LatestId(log), |log|)
  {
    if log != [] { LatestIsLast(log[..|log| - 1]); }
  }

  // ---- The invariant -----------------------------------------------------------------------------

  /** The events are the stretch of the log that starts at position `at`. */
  predicate Matches(log: seq<Event>, at: nat, events: seq<Event>) {
    at + |events| <= |log| && forall i | 0 <= i < |events| :: events[i] == log[at + i]
  }

  /** Delivered events, and behind them the pending ones, match the log from position `first` on. */
  ghost predicate Segment(log: seq<Event>, s: State, first: nat) {
    Matches(log, first, Delivered(s.sent)) && Matches(log, first + |Delivered(s.sent)|, s.pending)
  }

  /** What `poll` holds while it is suspended at the log: nothing pending, and what follows the cursor. */
  ghost predicate PhaseSound(log: seq<Event>, s: State, config: Config, first: nat) {
    match s.phase
    case Reading(_, from) => s.pending == [] && from == s.cursor
    case Served(_, answer) =>
      s.pending == []
      && (answer.Ok? ==>
            |answer.value| <= config.replayLimit && Matches(log, first + |Delivered(s.sent)|, answer.value))
    case _ => true
  }

  /** The cursor is the last delivered id, or the start. */
  ghost predicate CursorSound(s: State, start: nat) {
    var d := Delivered(s.sent);
    s.cursor == if d == [] then start else d[|d| - 1].id
  }

  ghost predicate Inv(w: World, config: Config, start: nat, first: nat) {
    && Increasing(w.log) && Splits(w.log, start, first)
    && Segment(w.log, w.stream, first) && CursorSound(w.stream, start)
    && |w.stream.pending| <= config.replayLimit
    && PhaseSound(w.log, w.stream, config, first)
  }

  // ---- Every step keeps it -----------------------------------------------------------------------

  /** One turn of the drain loop. */
  function DrainOne(s: State, at: int): State
    requires s.pending != []
  {
    Send(s, EventChunk(s.pending[0])).(pending := s.pending[1..], cursor := s.pending[0].id, heartbeatAt := at)
  }

  /** Draining moves events from the queue to the consumer and touches nothing that poll remembers. */
  lemma {:induction false} DrainShape(log: seq<Event>, s: State, first: nat, start: nat, at: int)
    requires Segment(log, s, first) && CursorSound(s, start)
    ensures var n := Drain(s, at);
      && Segment(log, n, first) && CursorSound(n, start)
      && |n.pending| <= |s.pending| && (s.pending == [] ==> n == s)
      && n.closed == s.closed && n.phase == s.phase
    decreases |s.pending|
  {
    if !s.closed && s.pending != [] && s.room > 0 {
      DrainShape(log, DrainOne(s, at), first, start, at);
    }
  }

  lemma {:induction false} DrainKeeps(w: World, config: Config, start: nat, first: nat, at: int)
    requires Inv(w, config, start, first)
    ensures Inv(w.(stream := Drain(w.stream, at)), config, start, first)
  {
    DrainShape(w.log, w.stream, first, start, at);
  }

  /** A chunk that is no event, a close and a change of timers leave the segment alone. */
  lemma {:induction false} QuietKeeps(w: World, config: Config, start: nat, first: nat, next: State)
    requires Inv(w, config, start, first)
    requires Delivered(next.sent) == Delivered(w.stream.sent) && next.pending == w.stream.pending && next.cursor == w.stream.cursor
    requires next.phase == w.stream.phase || (!next.phase.Reading? && !next.phase.Served?)
             || (next.phase.Reading? && next.phase.from == next.cursor && next.pending == [])
    ensures Inv(w.(stream := next), config, start, first)
  {}

  lemma {:induction false} ProceedKeeps(w: World, config: Config, start: nat, first: nat, now: int)
    requires Inv(w, config, start, first)
    ensures Inv(w.(stream := PollProceed(w.stream, config, now)), config, start, first)
  {
    DrainKeeps(w, config, start, first, now);
    QuietKeeps(w.(stream := Drain(w.stream, now)), config, start, first, PollProceed(w.stream, config, now));
  }

  lemma {:induction false} EnterKeeps(w: World, config: Config, start: nat, first: nat, now: int, aborted: bool)
    requires Inv(w, config, start, first) && w.stream.phase.Waiting?
    ensures Inv(w.(stream := PollEnter(w.stream, config, now, aborted)), config, start, first)
  {
    ProceedKeeps(w, config, start, first, now);
  }

  lemma {:induction false} AuthorizedKeeps(w: World, config: Config, start: nat, first: nat, decision: Decision)
    requires Inv(w, config, start, first) && w.stream.phase.Authorizing?
    ensures Inv(w.(stream := PollAuthorized(w.stream, config, decision)), config, start, first)
  {
    var s := w.stream.(authorizedAt := w.stream.phase.now);
    match decision
    case Threw =>
    case Denied =>
    case Allowed =>
      QuietKeeps(w, config, start, first, s);
      ProceedKeeps(w.(stream := s), config, start, first, s.phase.now);
  }

  lemma {:induction false} ServeKeeps(w: World, config: Config, start: nat, first: nat, available: bool)
    requires Inv(w, config, start, first) && w.stream.phase.Reading?
    ensures Inv(w.(stream := PollServe(w.stream, config, w.log, available)), config, start, first)
  {
    AfterIsSuffix(w.log, w.stream.cursor, first + |Delivered(w.stream.sent)|);
  }

  lemma {:induction false} BeatKeeps(w: World, config: Config, start: nat, first: nat, s: State, now: int)
    requires Inv(w, config, start, first) && w.stream == s.(phase := Waiting)
    ensures Inv(w.(stream := Beat(s, config, now)), config, start, first)
  {
    QuietKeeps(w, config, start, first, Beat(s, config, now));
  }

  lemma {:induction false} FinishOkKeeps(w: World, config: Config, start: nat, first: nat, events: seq<Event>, at: int)
    requires Inv(w, config, start, first) && w.stream.phase.Served? && w.stream.phase.answer == Ok(events)
    ensures Inv(w.(stream := Beat(Drain(w.stream.(pending := events), at), config, w.stream.phase.now)), config, start, first)
  {
    DrainIgnoresPhase(w.stream.(pending := events), at);
    var loaded := w.(stream := w.stream.(pending := events, phase := Waiting));
    DrainKeeps(loaded, config, start, first, at);
    BeatKeeps(w.(stream := Drain(loaded.stream, at)), config, start, first, Drain(w.stream.(pending := events), at), w.stream.phase.now);
  }

  lemma {:induction false} FinishKeeps(w: World, config: Config, start: nat, first: nat, at: int)
    requires Inv(w, config, start, first) && w.stream.phase.Served?
    ensures Inv(w.(stream := PollFinish(w.stream, config, at)), config, start, first)
  {
    match w.stream.phase.answer
    case Err(code) =>
    case Ok(events) =>
      assert w.stream.pending + events == events;
      FinishOkKeeps(w, config, start, first, events, at);
  }

  lemma {:induction false} DrainIgnoresPhase(s: State, at: int)
    ensures Drain(s.(phase := Waiting), at) == Drain(s, at).(phase := Waiting)
    decreases |s.pending|
  {
    if !s.closed && s.pending != [] && s.room > 0 {
      var sent := Send(s, EventChunk(s.pending[0])).(pending := s.pending[1..], cursor := s.pending[0].id, heartbeatAt := at);
      DrainIgnoresPhase(sent, at);
    }
  }

  lemma {:induction false} AppendKeeps(w: World, config: Config, start: nat, first: nat, e: Event)
    requires Inv(w, config, start, first) && e.id > LatestId(w.log) && start <= LatestId(w.log)
    ensures Inv(w.(log := w.log + [e]), config, start, first)
  {
  }

  lemma {:induction false} TakeKeeps(w: World, config: Config, start: nat, first: nat, step: Step)
    requires Inv(w, config, start, first) && start <= LatestId(w.log)
    ensures Inv(Take(w, config, step), config, start, first) && start <= LatestId(Take(w, config, step).log)
    ensures w.log <= Take(w, config, step).log
  {
    match step
    case AppendStep(e) =>
      if e.id > LatestId(w.log) {
        AppendKeeps(w, config, start, first, e);
        LatestIsLast(w.log + [e]);
      }
    case EnterStep(now, aborted) => if w.stream.phase.Waiting? { EnterKeeps(w, config, start, first, now, aborted); }
    case AuthorizedStep(decision) => if w.stream.phase.Authorizing? { AuthorizedKeeps(w, config, start, first, decision); }
    case ServeStep(available) => if w.stream.phase.Reading? { ServeKeeps(w, config, start, first, available); }
    case FinishStep(at) => if w.stream.phase.Served? { FinishKeeps(w, config, start, first, at); }
    case PullStep(at) => DrainKeeps(w, config, start, first, at);
    case AbortStep => QuietKeeps(w, config, start, first, Close(w.stream));
    case CancelStep => QuietKeeps(w, config, start, first, Cancel(w.stream));
    case ConsumeStep => QuietKeeps(w, config, start, first, Consume(w.stream));
  }

  lemma {:induction false} RunKeeps(w: World, config: Config, start: nat, first: nat, steps: seq<Step>)
    requires Inv(w, config, start, first) && start <= LatestId(w.log)
    ensures Inv(Run(w, config, steps), config, start, first) && start <= LatestId(Run(w, config, steps).log)
    ensures w.log <= Run(w, config, steps).log
  {
    if steps != [] {
      var n := |steps| - 1;
      RunKeeps(w, config, start, first, steps[..n]);
      TakeKeeps(Run(w, config, steps[..n]), config, start, first, steps[n]);
    }
  }

  // ---- Connecting --------------------------------------------------------------------------------

  /** The id a connection resumes behind. */
  function StartOf(log: seq<Event>, lastEventId: Option<nat>): nat {
    if lastEventId.Some? then lastEventId.value else LatestId(log)
  }

  /** A resume position is accepted exactly when it is zero or in the log, with a replay inside the window. */
  lemma {:induction false} ConnectExactly(log: seq<Event>, id: nat, config: Config, at: int)
    requires Increasing(log)
    ensures Connect(log, Some(id), config, at).Ok? <==> (id == 0 || HasId(log, id)) && |After(log, id)| <= config.replayLimit
    ensures Connect(log, Some(id), config, at) == Err(InvalidLastEventId) <==> id > LatestId(log)
    ensures Connect(log, None, config, at).Ok?
  {
    LatestIsLast(log);
    if HasId(log, id) {
      var i :| 0 <= i < |log| && log[i].id == id;
      assert log[i].id <= log[|log| - 1].id;
    }
  }

  /** The stream right after connecting behind an id. */
  function Opened(log: seq<Event>, start: nat, at: int): World { World(log, Open(start, After(log, start), at)) }

  lemma {:induction false} OpenKeeps(log: seq<Event>, config: Config, start: nat, at: int) returns (first: nat)
    requires Increasing(log) && |After(log, start)| <= config.replayLimit
    ensures Inv(Opened(log, start, at), config, start, first)
  {
    first := SplitPoint(log, start);
    AfterIsSuffix(log, start, first);
    assert [] + [RetryChunk] == [RetryChunk];
    assert Open(start, After(log, start), at).sent == [RetryChunk];
  }

  lemma {:induction false} ConnectOpens(log: seq<Event>, lastEventId: Option<nat>, config: Config, at: int)
    requires Increasing(log) && Connect(log, lastEventId, config, at).Ok?
    ensures var start := StartOf(log, lastEventId);
      && |After(log, start)| <= config.replayLimit && start <= LatestId(log)
      && Connect(log, lastEventId, config, at).value == Opened(log, start, at)
  {
    LatestIsLast(log);
    AfterIsSuffix(log, LatestId(log), |log|);
  }

  // ---- Main results ------------------------------------------------------------------------------

  /**
   * The delivered events, followed by the pending ones, are a gapless prefix of what the log holds behind the start id, in
   * the order of the log and each once, with the cursor at the last one delivered; never more than the replay limit are
   * pending.
   */
  ghost predicate Exact(w: World, config: Config, start: nat) {
    var d := Delivered(w.stream.sent);
    && d + w.stream.pending <= After(w.log, start)
    && |w.stream.pending| <= config.replayLimit
    && (forall i, j | 0 <= i < j < |d| :: d[i].id < d[j].id)
    && w.stream.cursor == (if d == [] then start else d[|d| - 1].id)
  }

  /** Every run is exact at every moment. */
  lemma {:induction false} StreamIsExact(log: seq<Event>, lastEventId: Option<nat>, config: Config, at: int, steps: seq<Step>)
    requires Increasing(log) && Connect(log, lastEventId, config, at).Ok?
    ensures var w := Run(Connect(log, lastEventId, config, at).value, config, steps);
      log <= w.log && Exact(w, config, StartOf(log, lastEventId))
  {
    ConnectOpens(log, lastEventId, config, at);
    OpenedIsExact(log, StartOf(log, lastEventId), config, at, steps);
  }

  lemma {:induction false} OpenedIsExact(log: seq<Event>, start: nat, config: Config, at: int, steps: seq<Step>)
    requires Increasing(log) && |After(log, start)| <= config.replayLimit && start <= LatestId(log)
    ensures var w := Run(Opened(log, start, at), config, steps); log <= w.log && Exact(w, config, start)
  {
    var first := OpenKeeps(log, config, start, at);
    RunKeeps(Opened(log, start, at), config, start, first, steps);
    InvIsExact(Run(Opened(log, start, at), config, steps), config, start, first);
  }

  lemma {:induction false} InvIsExact(w: World, config: Config, start: nat, first: nat)
    requires Inv(w, config, start, first)
    ensures Exact(w, config, start)
  {
    AfterIsSuffix(w.log, start, first);
  }

  /**
   * Reconnecting with the id of the received event at `k` continues where that event ended: the resume is refused only
   * when the backlog has outgrown the replay window, and what the second connection delivers follows without gap or
   * repetition.
   */
  ghost predicate Resumes(w: World, config: Config, start: nat, k: nat, again: int, more: seq<Step>)
    requires k < |Delivered(w.stream.sent)|
  {
    var received := Delivered(w.stream.sent)[..k + 1];
    var resumed := Connect(w.log, Some(received[k].id), config, again);
    && (resumed.Ok? <==> |After(w.log, received[k].id)| <= config.replayLimit)
    && (resumed.Ok? ==>
          var v := Run(resumed.value, config, more);
          received + Delivered(v.stream.sent) <= After(v.log, start))
  }

  /** A client that reconnects with any received id, after any run, continues the same sequence. */
  lemma {:induction false} ReconnectContinues(log: seq<Event>, lastEventId: Option<nat>, config: Config, at: int, steps: seq<Step>,
                                              k: nat, again: int, more: seq<Step>)
    requires Increasing(log) && Connect(log, lastEventId, config, at).Ok?
    requires k < |Delivered(Run(Connect(log, lastEventId, config, at).value, config, steps).stream.sent)|
    ensures Resumes(Run(Connect(log, lastEventId, config, at).value, config, steps), config, StartOf(log, lastEventId), k, again, more)
  {
    ConnectOpens(log, lastEventId, config, at);
    OpenedResumes(log, StartOf(log, lastEventId), config, at, steps, k, again, more);
  }

  lemma {:induction false} OpenedResumes(log: seq<Event>, start: nat, config: Config, at: int, steps: seq<Step>,
                                         k: nat, again: int, more: seq<Step>)
    requires Increasing(log) && |After(log, start)| <= config.replayLimit && start <= LatestId(log)
    requires k < |Delivered(Run(Opened(log, start, at), config, steps).stream.sent)|
    ensures Resumes(Run(Opened(log, start, at), config, steps), config, start, k, again, more)
  {
    var first := OpenKeeps(log, config, start, at);
    RunKeeps(Opened(log, start, at), config, start, first, steps);
    InvResumes(Run(Opened(log, start, at), config, steps), config, start, first, k, again, more);
  }

  lemma {:induction false} InvResumes(w: World, config: Config, start: nat, first: nat, k: nat, again: int, more: seq<Step>)
    requires Inv(w, config, start, first) && k < |Delivered(w.stream.sent)|
    ensures Resumes(w, config, start, k, again, more)
  {
    assert Delivered(w.stream.sent)[k] == w.log[first + k];
    var id := w.log[first + k].id;
    assert HasId(w.log, id);
    ConnectExactly(w.log, id, config, again);
    if Connect(w.log, Some(id), config, again).Ok? {
      RunFrom(w.log, first + k, config, again, more);
      JoinRuns(w, Run(Connect(w.log, Some(id), config, again).value, config, more), config, start, first, k);
    }
  }

  lemma {:induction false} ConnectAt(log: seq<Event>, k: nat, config: Config, at: int)
    requires Increasing(log) && k < |log| && Connect(log, Some(log[k].id), config, at).Ok?
    ensures var w := Connect(log, Some(log[k].id), config, at).value;
      Inv(w, config, log[k].id, k + 1) && w.log == log && log[k].id <= LatestId(log)
  {
    ConnectOpens(log, Some(log[k].id), config, at);
    var first := OpenKeeps(log, config, log[k].id, at);
    SplitUnique(log, log[k].id, first, k + 1);
  }

  lemma {:induction false} RunFrom(log: seq<Event>, k: nat, config: Config, at: int, steps: seq<Step>)
    requires Increasing(log) && k < |log| && Connect(log, Some(log[k].id), config, at).Ok?
    ensures var w := Run(Connect(log, Some(log[k].id), config, at).value, config, steps);
      Inv(w, config, log[k].id, k + 1) && log <= w.log
  {
    ConnectAt(log, k, config, at);
    RunKeeps(Connect(log, Some(log[k].id), config, at).value, config, log[k].id, k + 1, steps);
  }

  lemma {:induction false} JoinRuns(w: World, v: World, config: Config, start: nat, first: nat, k: nat)
    requires Inv(w, config, start, first) && k < |Delivered(w.stream.sent)| && first + k < |w.log|
    requires Inv(v, config, w.log[first + k].id, first + k + 1) && w.log <= v.log
    ensures Delivered(w.stream.sent)[..k + 1] + Delivered(v.stream.sent) <= After(v.log, start)
  {
    StillSplits(w.log, v.log, start, first);
    AfterIsSuffix(v.log, start, first);
  }

  lemma {:induction false} SplitUnique(log: seq<Event>, id: nat, k: nat, l: nat)
    requires Splits(log, id, k) && Splits(log, id, l)
    ensures k == l
  {
    AfterIsSuffix(log, id, k);
    AfterIsSuffix(log, id, l);
  }

  lemma {:induction false} StillSplits(log: seq<Event>, longer: seq<Event>, id: nat, k: nat)
    requires Increasing(longer) && log <= longer && Splits(log, id, k) && k < |log|
    ensures Splits(longer, id, k)
  {
    assert longer[k] == log[k];
  }

  /** Once closed, nothing more is sent. */
  lemma {:induction false} ClosedIsFinal(w: World, config: Config, steps: seq<Step>)
    requires w.stream.closed
    ensures Run(w, config, steps).stream.closed && Run(w, config, steps).stream.sent == w.stream.sent
  {
    if steps != [] {
      ClosedIsFinal(w, config, steps[..|steps| - 1]);
    }
  }

  // ---- Progress ----------------------------------------------------------------------------------

  /** The consumer takes a chunk, and with room again pulls. */
  function Turns(n: nat, at: int): seq<Step> {
    if n == 0 then [] else Turns(n - 1, at) + [ConsumeStep, PullStep(at)]
  }

  lemma {:induction false} RunTwo(w: World, config: Config, steps: seq<Step>, a: Step, b: Step)
    ensures Run(w, config, steps + [a, b]) == Take(Take(Run(w, config, steps), config, a), config, b)
  {
    var all := steps + [a, b];
    assert all[..|all| - 1] == steps + [a] && (steps + [a])[..|steps|] == steps;
  }

  lemma {:induction false} RunJoins(w: World, config: Config, steps: seq<Step>, more: seq<Step>)
    ensures Run(w, config, steps + more) == Run(Run(w, config, steps), config, more)
  {
    if more == [] {
      assert steps + more == steps;
    } else {
      RunJoins(w, config, steps, more[..|more| - 1]);
      assert (steps + more)[..|steps + more| - 1] == steps + more[..|more| - 1];
    }
  }

  /** A full queue over pending events: one turn delivers the first of them. */
  predicate Backed(s: State) { !s.closed && s.pending != [] && s.room == HIGH_WATER - 1 }

  lemma {:induction false} DeliveredStep(sent: seq<Chunk>, chunk: Chunk)
    ensures Delivered(sent + [chunk]) == Delivered(sent) + (if chunk.EventChunk? then [chunk.event] else [])
  {
    assert (sent + [chunk])[..|sent|] == sent;
  }

  lemma {:induction false} TurnDelivers(w: World, config: Config, at: int)
    requires Backed(w.stream)
    ensures var v := Take(Take(w, config, ConsumeStep), config, PullStep(at));
      && v.log == w.log && v.stream.pending == w.stream.pending[1..] && !v.stream.closed && v.stream.room == HIGH_WATER - 1
      && Delivered(v.stream.sent) == Delivered(w.stream.sent) + [w.stream.pending[0]]
  {
    var ready := w.stream.(room := HIGH_WATER);
    assert Take(w, config, ConsumeStep).stream == ready;
    assert Drain(ready, at) == DrainOne(ready, at);
    DeliveredStep(ready.sent, EventChunk(ready.pending[0]));
  }

  /** So many turns deliver so many of the pending events. */
  lemma {:induction false} TurnsDeliver(w: World, config: Config, n: nat, at: int)
    requires !w.stream.closed && w.stream.room == HIGH_WATER - 1 && n <= |w.stream.pending|
    ensures var v := Run(w, config, Turns(n, at));
      && v.log == w.log && !v.stream.closed && v.stream.room == HIGH_WATER - 1
      && v.stream.pending == w.stream.pending[n..]
      && Delivered(v.stream.sent) == Delivered(w.stream.sent) + w.stream.pending[..n]
  {
    if n > 0 {
      TurnsDeliver(w, config, n - 1, at);
      RunTwo(w, config, Turns(n - 1, at), ConsumeStep, PullStep(at));
      TurnDelivers(Run(w, config, Turns(n - 1, at)), config, at);
      assert w.stream.pending[..n] == w.stream.pending[..n - 1] + [w.stream.pending[n - 1]];
    }
  }

  /** A waiting stream with nothing pending, whose consumer asks for a chunk and whose access needs no new check. */
  predicate Ready(s: State, config: Config, now: int) {
    && s.phase.Waiting? && !s.closed && s.pending == [] && s.room == HIGH_WATER
    && !(config.authorizes && now - s.authorizedAt >= config.reauthorizeMs)
  }

  function Round(now: int, at: int): seq<Step> { [EnterStep(now, false), ServeStep(true), FinishStep(at)] }

  lemma {:induction false} RoundServes(w: World, config: Config, now: int, at: int)
    requires Ready(w.stream, config, now) && |After(w.log, w.stream.cursor)| <= config.replayLimit
    ensures Run(w, config, Round(now, at)).log == w.log
    ensures Run(w, config, Round(now, at)).stream
      == PollFinish(w.stream.(backpressurePolls := 0, phase := Served(now, Ok(After(w.log, w.stream.cursor)))), config, at)
  {
    var steps := Round(now, at);
    assert steps[..2] == [EnterStep(now, false), ServeStep(true)] && steps[..2][..1] == [EnterStep(now, false)];
    assert steps[..2][..1][..0] == [] && Run(w, config, []) == w;
    var one := Take(w, config, steps[0]);
    assert Run(w, config, steps[..2][..1]) == one;
    assert one.stream == w.stream.(backpressurePolls := 0, phase := Reading(now, w.stream.cursor));
    assert Run(w, config, steps[..2]) == Take(one, config, steps[1]);
  }

  /** A poll that reads several events delivers the first and keeps the others pending. */
  lemma {:induction false} FinishDelivers(s: State, config: Config, events: seq<Event>, at: int)
    requires s.phase.Served? && s.phase.answer == Ok(events) && events != []
    requires s.pending == [] && !s.closed && s.room == HIGH_WATER
    ensures var v := PollFinish(s, config, at);
      && Delivered(v.sent) == Delivered(s.sent) + [events[0]] && v.pending == events[1..] && !v.closed
      && (|events| > 1 ==> v.room == HIGH_WATER - 1)
  {
    assert s.pending + events == events;
    var loaded := s.(pending := events);
    var one := DrainOne(loaded, at);
    assert Drain(loaded, at) == Drain(one, at) == one;
    DeliveredStep(s.sent, EventChunk(events[0]));
    DeliveredStep(one.sent, HeartbeatChunk(s.phase.now));
  }

  /**
   * A poll with a ready consumer and `n` turns of it deliver the next `n` + 1 events of the log, up to all events behind
   * the cursor.
   */
  lemma {:induction false} RoundsDeliver(w: World, config: Config, now: int, at: int, n: nat)
    requires Ready(w.stream, config, now) && n < |After(w.log, w.stream.cursor)| <= config.replayLimit
    ensures var v := Run(w, config, Round(now, at) + Turns(n, at));
      Delivered(v.stream.sent) == Delivered(w.stream.sent) + After(w.log, w.stream.cursor)[..n + 1]
  {
    var events := After(w.log, w.stream.cursor);
    var mid := Run(w, config, Round(now, at));
    RunJoins(w, config, Round(now, at), Turns(n, at));
    RoundServes(w, config, now, at);
    FinishDelivers(w.stream.(backpressurePolls := 0, phase := Served(now, Ok(events))), config, events, at);
    if n > 0 { TurnsDeliver(mid, config, n, at); } else { assert Turns(n, at) == []; }
    FirstAndMore(Delivered(w.stream.sent), events, n);
  }

  lemma {:induction false} FirstAndMore(d: seq<Event>, events: seq<Event>, n: nat)
    requires n < |events|
    ensures d + [events[0]] + events[1..][..n] == d + events[..n + 1]
    ensures d + [events[0]] == d + events[..1]
  {
    assert events[..n + 1] == [events[0]] + events[1..][..n];
  }

  // ---- The resume header -------------------------------------------------------------------------

  lemma {:induction false} NineteenDigits()
    ensures Power(19) == 10000000000000000000
  {
    assert Power(5) == 100000;
    assert Power(10) == 10000000000;
    assert Power(15) == 1000000000000000;
  }

  /** The id a consumer echoes back is read as the id that was sent, over the whole range of the column. */
  lemma {:induction false} HeaderRoundTrips(id: nat)
    requires id <= MAX_EVENT_ID
    ensures ParseLastEventId(Some(Print(id))) == Ok(Some(id))
  {
    PrintReads(id);
    NineteenDigits();
    PrintLength(id, 19);
    if id > 0 { assert Print(id)[0] != '0'; } else { assert Print(0) == "0"; }
  }

  /** Only the canonical text of an id is accepted. */
  lemma {:induction false} HeaderIsCanonical(text: string)
    requires ParseLastEventId(Some(text)).Ok?
    ensures Canonical(text) && ParseLastEventId(Some(text)).value == Some(Read(text)) && Read(text) <= MAX_EVENT_ID
  {}
}
