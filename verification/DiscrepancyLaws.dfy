/** What single steps of the discrepancy machine promise. */
module DiscrepancyLaws {
  import opened Outcomes
  import opened Decimals
  import opened Discrepancy

  // ---- What the schema says ----------------------------------------------------------------------

  /** A letter or digit, by its code. */
  predicate Alphanumeric(c: char) { 48 <= c as int <= 57 || 65 <= c as int <= 90 || 97 <= c as int <= 122 }

  /** An identifier is a letter or digit and up to 127 more letters, digits, dots, underscores, colons and hyphens. */
  lemma {:induction false} IdentifierExactly(s: string)
    ensures Identifier(s) <==>
              1 <= |s| <= 128 && Alphanumeric(s[0]) && forall c | c in s :: Alphanumeric(c) || c == '.' || c == '_' || c == ':' || c == '-'
  {
    assert IdentifierChar('.') && IdentifierChar('_') && IdentifierChar(':') && IdentifierChar('-') by {
      var marks := "._:-";
      assert marks[0] == '.' && marks[1] == '_' && marks[2] == ':' && marks[3] == '-';
    }
  }

  /** The standings a state may have: by whether it names a party and whether it is graded Info. */
  predicate AllowedStanding(s: State) {
    match s.publication
    case Internal => s.reply == NotRequired
    case PendingReply => s.namedParty && s.severity != Info && s.reply != NotRequired
    case ApprovedPublic =>
      && s.severity != Info
      && (if s.namedParty then s.reply == ResponseReviewed || s.reply == WindowExpired else s.reply == NotRequired)
    case Withheld => s.severity != Info
  }

  /** The counters of an episode: none after it, and while it lasts the streak above Info decides the severity. */
  predicate AllowedCounters(s: State) {
    if s.lifecycle == Resolved then s.cycles == 0 && s.aboveInfo == 0
    else
      && 1 <= s.cycles <= 9007199254740991 && 0 <= s.aboveInfo <= s.cycles
      && s.severity == if s.aboveInfo == 0 then Info else if s.aboveInfo <= 2 then Warning else Critical
  }

  /** The schema of persisted states, told by standing, counters and times. */
  lemma {:induction false} ValidExactly(s: State)
    ensures Valid(s) <==>
              && Identifier(s.discrepancyId) && Identifier(s.sourceId) && Identifier(s.lastFinalizedCycleId) && 1 <= |s.version| <= 100
              && s.firstObservedAt <= s.lastObservedAt <= s.lastFinalizedAt && s.firstObservedAt <= s.publicationUpdatedAt
              && AllowedCounters(s) && AllowedStanding(s)
  {}

  // ---- The closing parse -------------------------------------------------------------------------

  /** The cycle reaches the part of `Advance` that computes a new state. */
  predicate Accepted(prior: Option<State>, discrepancyId: string, sourceId: string, namedParty: bool, version: string,
                     cycle: Cycle)
  {
    && Identifier(discrepancyId) && Identifier(sourceId) && Identifier(version) && Identifier(cycle.id)
    && (prior.Some? ==>
          && prior.value.sourceId == sourceId && prior.value.namedParty == namedParty
          && (prior.value.lifecycle == Open ==> prior.value.version == version && prior.value.discrepancyId == discrepancyId)
          && cycle.id != prior.value.lastFinalizedCycleId && prior.value.lastFinalizedAt < cycle.at)
  }

  predicate IsOpen(prior: Option<State>) { prior.Some? && prior.value.lifecycle == Open }

  /** The streak of an open discrepancy is at the largest safe integer, or an episode would open under too long a version. */
  predicate Overflows(prior: Option<State>, version: string, cycle: Cycle) {
    cycle.band != WithinTolerance && if IsOpen(prior) then prior.value.cycles == SAFE_INTEGER_MAX else |version| > 100
  }

  /**
   * An accepted cycle fails exactly in two families of cycles outside tolerance: those that would push the streak of an
   * open discrepancy past the largest safe integer, and those that open an episode under a methodology version the
   * identifier rule allows but the persisted schema finds too long. The classification throws first when the above-Info
   * streak is that long as well; otherwise the closing parse rejects.
   */
  lemma {:induction false} AdvanceRejectsExactly(prior: Option<State>, discrepancyId: string, sourceId: string, namedParty: bool,
                              version: string, cycle: Cycle)
    requires prior.Some? ==> Valid(prior.value)
    ensures var r := Advance(prior, discrepancyId, sourceId, namedParty, version, cycle);
      var accepted := Accepted(prior, discrepancyId, sourceId, namedParty, version, cycle);
      && (r == Err(StreakTooLong) <==>
            accepted && cycle.band == AboveInfo && IsOpen(prior) && prior.value.aboveInfo == SAFE_INTEGER_MAX)
      && (r == Err(SchemaRejected) <==> accepted && Overflows(prior, version, cycle) && r != Err(StreakTooLong))
      && (accepted && r.Err? ==> r == Err(StreakTooLong) || r == Err(SchemaRejected))
  {}

  /** The parse that closes a publication action never rejects: the guards of the switch already suffice. */
  lemma {:induction false} TransitionNeverRejected(s: State, action: Action)
    ensures Transition(s, action) != Err(SchemaRejected)
    ensures Transition(s, action).Ok? <==>
              Valid(s) && Identifier(action.eventId) && s.publicationUpdatedAt <= action.at && Target(s, action).Some?
  {}

  // ---- Publication -------------------------------------------------------------------------------

  /** Position of a standing on the way from internal to withheld. */
  function Progress(standing: Standing): nat {
    match standing.0
    case Internal => 0
    case PendingReply =>
      (match standing.1
       case NotRequired => 0
       case AwaitingReply => 1
       case ResponseReceived => 2
       case ResponseReviewed => 3
       case WindowExpired => 3)
    case ApprovedPublic => 4
    case Withheld => 5
  }

  /** Publication actions only move forward, change nothing a measurement owns, and a named party's
      approval rests on a reviewed response or an expired window. */
  lemma {:induction false} TransitionMovesForward(s: State, action: Action)
    requires Transition(s, action).Ok?
    ensures var t := Transition(s, action).value.state;
      && t == s.(publication := t.publication, reply := t.reply, publicationUpdatedAt := action.at)
      && Progress((s.publication, s.reply)) < Progress((t.publication, t.reply)) <= 5
      && (t.publication == ApprovedPublic && s.namedParty ==>
            s.publication == PendingReply && (s.reply == ResponseReviewed || s.reply == WindowExpired))
  {}

  /** No action leaves `withheld`; a measurement leaves it only by falling to Info or opening a new episode. */
  lemma {:induction false} WithheldIsLeftOnlyByMeasurement(s: State, action: Action, discrepancyId: string, sourceId: string,
                                        namedParty: bool, version: string, cycle: Cycle)
    requires Valid(s) && s.publication == Withheld
    ensures Transition(s, action).Err?
    ensures var r := Advance(Some(s), discrepancyId, sourceId, namedParty, version, cycle);
      r.Ok? && r.value.state.Some? && r.value.state.value.publication != Withheld ==>
        && r.value.state.value.publication == Internal
        && |r.value.events| == 1
        && ((r.value.events[0].kind == Observed && r.value.events[0].after.severity == Info)
            || r.value.events[0].kind == Opened)
  {}

  // ---- Event identifiers -------------------------------------------------------------------------

  lemma {:induction false} PrintHasNoColon(n: nat)
    ensures ':' !in Print(n)
  {
    PrintReads(n);
  }

  lemma {:induction false} FrameDecodes(a: string, rest: string, a': string, rest': string)
    requires Framed(a) + rest == Framed(a') + rest'
    ensures a == a' && rest == rest'
  {
    PrintHasNoColon(|a|);
    PrintHasNoColon(|a'|);
    assert Framed(a) + rest == Print(|a|) + [':'] + (a + rest);
    assert Framed(a') + rest' == Print(|a'|) + [':'] + (a' + rest');
    SplitAtFirst(':', Print(|a|), a + rest, Print(|a'|), a' + rest');
    PrintReads(|a|);
    PrintReads(|a'|);
    assert a == (a + rest)[..|a|] && a' == (a' + rest')[..|a'|];
    assert rest == (a + rest)[|a|..] && rest' == (a' + rest')[|a'|..];
  }

  lemma {:induction false} DropPrefix(p: string, x: string, y: string)
    requires p + x == p + y
    ensures x == y
  {
    assert (p + x)[|p|..] == x && (p + y)[|p|..] == y;
  }

  /** Two measurement events share an identifier only when they share discrepancy, cycle and type,
      even though identifiers may hold colons. */
  lemma {:induction false} EventIdInjective(d: string, c: string, k: Kind, d': string, c': string, k': Kind)
    requires EventId(d, c, k) == EventId(d', c', k')
    ensures d == d' && c == c' && k == k'
  {
    var tail := ":" + KindText(k);
    var tail' := ":" + KindText(k');
    DropPrefix("d", Framed(d) + (":c" + (Framed(c) + tail)), Framed(d') + (":c" + (Framed(c') + tail')));
    FrameDecodes(d, ":c" + (Framed(c) + tail), d', ":c" + (Framed(c') + tail'));
    DropPrefix(":c", Framed(c) + tail, Framed(c') + tail');
    FrameDecodes(c, tail, c', tail');
    DropPrefix(":", KindText(k), KindText(k'));
  }

  /**
   * An event identifier is itself an acceptable identifier exactly when it has at most 128 characters.
   * Amendments and corrections demand that of the event they target.
   */
  lemma {:induction false} EventIdIsIdentifierExactly(d: string, c: string, k: Kind)
    requires Identifier(d) && Identifier(c)
    ensures Identifier(EventId(d, c, k))
      <==> |d| + |c| + |Print(|d|)| + |Print(|c|)| + |KindText(k)| + 6 <= 128
  {
    var id := EventId(d, c, k);
    PrintReads(|d|);
    PrintReads(|c|);
    assert id[0] == 'd';
    forall x | x in id ensures IdentifierChar(x) {
      KindCharacters(k);
      assert x in "d:c" || x in Print(|d|) || x in d || x in Print(|c|) || x in c || x in KindText(k);
    }
  }

  lemma {:induction false} KindCharacters(k: Kind)
    ensures forall y | y in KindText(k) :: IdentifierStart(y)
  {
    match k
    case Opened =>
    case Observed =>
    case Escalated =>
    case Reconverged =>
    case ResolvedEvent =>
  }

  /**
   * An anchor reserve discrepancy is named by 15 characters and a SHA-256 digest, a scheduled cycle by
   * 6 characters and a digest. No event of such a discrepancy has an identifier a correction accepts.
   */
  lemma {:induction false} AnchorReserveEventsCannotBeTargeted(d: string, c: string, k: Kind)
    requires Identifier(d) && Identifier(c) && |d| == 15 + 64 && |c| == 6 + 64
    ensures !Identifier(EventId(d, c, k))
  {
    EventIdIsIdentifierExactly(d, c, k);
  }
}
