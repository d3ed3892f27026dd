/**
 * The resumable stream of snapshot events (server-sent events, section 9.2 of the HTML Living Standard): an append-only
 * log, a bounded replay, and a stream whose state two drivers share. `poll` runs from a timer and is suspended while it
 * waits for authorization and for the log; `pull`, an abort or a cancel may run in between. Every step below runs
 * from one suspension to the next.
 */
module SnapshotStream {
  import opened Outcomes
  import opened Decimals

  // ---- The log -----------------------------------------------------------------------------------

  datatype Event = Event(id: nat, payload: string)

  datatype ReplayFault = InvalidLastEventId | ReplayWindowExceeded

  const MAX_EVENT_ID: nat := 9223372036854775807

  function LatestId(log: seq<Event>): nat {
    if log == [] then 0
    else
      var before := LatestId(log[..|log| - 1]);
      if log[|log| - 1].id > before then log[|log| - 1].id else before
  }

  function After(log: seq<Event>, id: nat): seq<Event> {
    if log == [] then []
    else After(log[..|log| - 1], id) + (if log[|log| - 1].id > id then [log[|log| - 1]] else [])
  }

  /** The events behind `id`, or an exception when there are more than the replay window permits. */
  function ReadAfter(log: seq<Event>, id: nat, limit: nat): Result<seq<Event>, ReplayFault> {
    if |After(log, id)| > limit then Err(ReplayWindowExceeded) else Ok(After(log, id))
  }

  predicate HasId(log: seq<Event>, id: nat) { exists i :: 0 <= i < |log| && log[i].id == id }

  datatype Prepared = Prepared(cursor: nat, events: seq<Event>)

  /** Checks a resume position against the log and reads what is to be replayed. */
  function Prepare(log: seq<Event>, lastEventId: Option<nat>, limit: nat): Result<Prepared, ReplayFault> {
    match lastEventId
    case None => Ok(Prepared(LatestId(log), []))
    case Some(id) =>
      if id > LatestId(log) then Err(InvalidLastEventId)
      else if id > 0 && !HasId(log, id) then Err(ReplayWindowExceeded)
      else
        match ReadAfter(log, id, limit)
        case Err(fault) => Err(fault)
        case Ok(events) => Ok(Prepared(if events != [] then events[|events| - 1].id else id, events))
  }

  /** Zero, or a non-zero digit and up to eighteen more digits, within the range of the id column. */
  function ParseLastEventId(header: Option<string>): Result<Option<nat>, ReplayFault> {
    match header
    case None => Ok(None)
    case Some(text) =>
      if !AllDigits(text) || text == "" || |text| > 19 || (text[0] == '0' && |text| > 1) then Err(InvalidLastEventId)
      else if Read(text) > MAX_EVENT_ID then Err(InvalidLastEventId)
      else Ok(Some(Read(text)))
  }

  // ---- The stream --------------------------------------------------------------------------------

  datatype Code = AccessRevoked | WindowExceeded | StreamUnavailable

  datatype Chunk = RetryChunk | EventChunk(event: Event) | HeartbeatChunk(at: int) | ErrorChunk(code: Code)

  /** Where `poll` stands: waiting for its timer, suspended twice over, or not scheduled any more. */
  datatype Phase =
    | Waiting
    | Authorizing(now: int)
    | Reading(now: int, from: nat)
    | Served(now: int, answer: Result<seq<Event>, Code>)
    | Stopped

  datatype Config = Config(
    replayLimit: nat, authorizes: bool, reauthorizeMs: int, heartbeatMs: int, maxBackpressurePolls: nat)

  /** `room` is how many chunks the consumer's queue still asks for. */
  datatype State = State(
    cursor: nat,
    pending: seq<Event>,
    closed: bool,
    backpressurePolls: nat,
    heartbeatAt: int,
    authorizedAt: int,
    room: int,
    sent: seq<Chunk>,
    phase: Phase
  )

  /** The queue of a stream asks for one chunk unless told otherwise. */
  const HIGH_WATER: int := 1

  function Send(s: State, chunk: Chunk): State {
    if s.closed then s else s.(sent := s.sent + [chunk], room := s.room - 1)
  }

  function Open(cursor: nat, events: seq<Event>, at: int): State {
    Send(State(cursor, events, false, 0, at, at, HIGH_WATER, [], Waiting), RetryChunk)
  }

  function Close(s: State): State {
    if s.closed then s else s.(closed := true, phase := if s.phase.Waiting? then Stopped else s.phase)
  }

  /** The last thing `poll` does when it gives up. */
  function Fail(s: State, code: Code): State { Close(Send(s, ErrorChunk(code))).(phase := Stopped) }

  function Drain(s: State, at: int): State
    decreases |s.pending|
  {
    if s.closed || s.pending == [] || s.room <= 0 then s
    else
      var sent := Send(s, EventChunk(s.pending[0]));
      Drain(sent.(pending := s.pending[1..], cursor := s.pending[0].id, heartbeatAt := at), at)
  }

  /** From the timer to the first suspension. */
  function PollEnter(s: State, config: Config, now: int, aborted: bool): State
    requires s.phase.Waiting?
  {
    if s.closed then s.(phase := Stopped)
    else if aborted then Close(s).(phase := Stopped)
    else if config.authorizes && now - s.authorizedAt >= config.reauthorizeMs then s.(phase := Authorizing(now))
    else PollProceed(s, config, now)
  }

  /** Between authorization and the read of the log; a slow consumer ends the poll, and too many such polls the stream. */
  function PollProceed(s: State, config: Config, now: int): State {
    var drained := Drain(s, now);
    if drained.pending != [] || drained.room <= 0 then
      var slow := drained.(backpressurePolls := drained.backpressurePolls + 1);
      if slow.backpressurePolls >= config.maxBackpressurePolls then Close(slow).(phase := Stopped)
      else slow.(phase := Waiting)
    else drained.(backpressurePolls := 0, phase := Reading(now, drained.cursor))
  }

  datatype Decision = Allowed | Denied | Threw

  function PollAuthorized(s: State, config: Config, decision: Decision): State
    requires s.phase.Authorizing?
  {
    match decision
    case Threw => Fail(s, StreamUnavailable)
    case Denied => Fail(s.(authorizedAt := s.phase.now), AccessRevoked)
    case Allowed => PollProceed(s.(authorizedAt := s.phase.now), config, s.phase.now)
  }

  /** The log answers the suspended read, or the database fails. */
  function PollServe(s: State, config: Config, log: seq<Event>, available: bool): State
    requires s.phase.Reading?
  {
    var answer :=
      if !available then Err(StreamUnavailable)
      else
        match ReadAfter(log, s.phase.from, config.replayLimit)
        case Err(_) => Err(WindowExceeded)
        case Ok(events) => Ok(events);
    s.(phase := Served(s.phase.now, answer))
  }

  /** A quiet poll sends a heartbeat now and then; every finished poll schedules the next. */
  function Beat(s: State, config: Config, now: int): State {
    var beaten :=
      if s.pending == [] && now - s.heartbeatAt >= config.heartbeatMs
      then Send(s, HeartbeatChunk(now)).(heartbeatAt := now) else s;
    beaten.(phase := Waiting)
  }

  /** From the answer of the log to the next timer. */
  function PollFinish(s: State, config: Config, at: int): State
    requires s.phase.Served?
  {
    match s.phase.answer
    case Err(code) => Fail(s, code)
    case Ok(events) => Beat(Drain(s.(pending := s.pending + events), at), config, s.phase.now)
  }

  function Pull(s: State, at: int): State { Drain(s, at) }

  function Cancel(s: State): State { s.(closed := true, phase := if s.phase.Waiting? then Stopped else s.phase) }

  /** The consumer takes a chunk out of the queue. */
  function Consume(s: State): State { if s.room < HIGH_WATER then s.(room := s.room + 1) else s }

  // ---- Runs --------------------------------------------------------------------------------------

  datatype World = World(log: seq<Event>, stream: State)

  datatype Step =
    | AppendStep(event: Event)
    | EnterStep(now: int, aborted: bool)
    | AuthorizedStep(decision: Decision)
    | ServeStep(available: bool)
    | FinishStep(at: int)
    | PullStep(at: int)
    | AbortStep
    | CancelStep
    | ConsumeStep

  /** Ids become visible in increasing order. A step that does not apply in the current phase does nothing. */
  function Take(w: World, config: Config, step: Step): World {
    var s := w.stream;
    match step
    case AppendStep(event) => if event.id > LatestId(w.log) then w.(log := w.log + [event]) else w
    case EnterStep(now, aborted) => if s.phase.Waiting? then w.(stream := PollEnter(s, config, now, aborted)) else w
    case AuthorizedStep(decision) => if s.phase.Authorizing? then w.(stream := PollAuthorized(s, config, decision)) else w
    case ServeStep(available) => if s.phase.Reading? then w.(stream := PollServe(s, config, w.log, available)) else w
    case FinishStep(at) => if s.phase.Served? then w.(stream := PollFinish(s, config, at)) else w
    case PullStep(at) => w.(stream := Pull(s, at))
    case AbortStep => w.(stream := Close(s))
    case CancelStep => w.(stream := Cancel(s))
    case ConsumeStep => w.(stream := Consume(s))
  }

  function Run(w: World, config: Config, steps: seq<Step>): World {
    if steps == [] then w else Take(Run(w, config, steps[..|steps| - 1]), config, steps[|steps| - 1])
  }

  /** The events among the chunks, in the order they were sent. */
  function Delivered(sent: seq<Chunk>): seq<Event> {
    if sent == [] then []
    else
      Delivered(sent[..|sent| - 1])
      + (if sent[|sent| - 1].EventChunk? then [sent[|sent| - 1].event] else [])
  }

  /** A connection starts at its resume position, or behind everything that is in the log. */
  function Connect(log: seq<Event>, lastEventId: Option<nat>, config: Config, at: int): Result<World, ReplayFault> {
    match Prepare(log, lastEventId, config.replayLimit)
    case Err(fault) => Err(fault)
    case Ok(prepared) =>
      Ok(World(log, Open(if lastEventId.Some? then lastEventId.value else prepared.cursor, prepared.events, at)))
  }
}
