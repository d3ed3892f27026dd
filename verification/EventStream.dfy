/** The stream object as the program runs it: one set of variables that the drivers update in turn. */
module EventStream {
  import opened Outcomes
  import opened SnapshotStream

  class Stream {
    const config: Config
    var cursor: nat
    var pending: seq<Event>
    var closed: bool
    var backpressurePolls: nat
    var heartbeatAt: int
    var authorizedAt: int
    var room: int
    var sent: seq<Chunk>
    var phase: Phase

    function Contents(): State
      reads this
    {
      State(cursor, pending, closed, backpressurePolls, heartbeatAt, authorizedAt, room, sent, phase)
    }

    constructor (config: Config, initialCursor: nat, initialEvents: seq<Event>, at: int)
      ensures Contents() == Open(initialCursor, initialEvents, at) && this.config == config
    {
      this.config := config;
      cursor, pending, closed, backpressurePolls := initialCursor, initialEvents, false, 0;
      heartbeatAt, authorizedAt, room, sent, phase := at, at, HIGH_WATER - 1, [RetryChunk], Waiting;
    }

    method Enqueue(chunk: Chunk)
      modifies this`sent, this`room
      ensures Contents() == Send(old(Contents()), chunk)
    {
      if !closed { sent, room := sent + [chunk], room - 1; }
    }

    method CloseStream()
      modifies this`closed, this`phase
      ensures Contents() == Close(old(Contents()))
    {
      if closed { return; }
      closed := true;
      if phase.Waiting? { phase := Stopped; }
    }

    method FailStream(code: Code)
      modifies this`sent, this`room, this`closed, this`phase
      ensures Contents() == Fail(old(Contents()), code)
    {
      Enqueue(ErrorChunk(code));
      CloseStream();
      phase := Stopped;
    }

    method DrainPendingEvents(at: int)
      modifies this`sent, this`room, this`pending, this`cursor, this`heartbeatAt
      ensures Contents() == Drain(old(Contents()), at)
    {
      while !closed && pending != [] && room > 0
        invariant Drain(Contents(), at) == Drain(old(Contents()), at)
        decreases |pending|
      {
        var event := pending[0];
        pending := pending[1..];
        Enqueue(EventChunk(event));
        cursor := event.id;
        heartbeatAt := at;
      }
    }

    method PollTimer(now: int, aborted: bool)
      requires phase.Waiting?
      modifies this
      ensures Contents() == PollEnter(old(Contents()), config, now, aborted)
    {
      if closed {
        phase := Stopped;
      } else if aborted {
        CloseStream();
        phase := Stopped;
      } else if config.authorizes && now - authorizedAt >= config.reauthorizeMs {
        phase := Authorizing(now);
      } else {
        Proceed(now);
      }
    }

    method Proceed(now: int)
      modifies this
      ensures Contents() == PollProceed(old(Contents()), config, now)
    {
      DrainPendingEvents(now);
      if pending != [] || room <= 0 {
        backpressurePolls := backpressurePolls + 1;
        if backpressurePolls >= config.maxBackpressurePolls {
          CloseStream();
          phase := Stopped;
        } else {
          phase := Waiting;
        }
        return;
      }
      backpressurePolls := 0;
      phase := Reading(now, cursor);
    }

    method ResumeAuthorized(decision: Decision)
      requires phase.Authorizing?
      modifies this
      ensures Contents() == PollAuthorized(old(Contents()), config, decision)
    {
      if decision.Threw? {
        FailStream(StreamUnavailable);
        return;
      }
      var now := phase.now;
      authorizedAt := now;
      if decision.Denied? { FailStream(AccessRevoked); } else { Proceed(now); }
    }

    method ResumeRead(at: int)
      requires phase.Served?
      modifies this
      ensures Contents() == PollFinish(old(Contents()), config, at)
    {
      if phase.answer.Err? {
        FailStream(phase.answer.error);
        return;
      }
      var now := phase.now;
      pending := pending + phase.answer.value;
      DrainPendingEvents(at);
      if pending == [] && now - heartbeatAt >= config.heartbeatMs {
        Enqueue(HeartbeatChunk(now));
        heartbeatAt := now;
      }
      phase := Waiting;
    }
  }
}
