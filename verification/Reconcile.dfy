/**
 * One reconciliation cycle of a metric: the inputs are checked, the usable observations give a weighted median, and the
 * deviations from it advance the discrepancies of their sources. An error result is an exception: no partial snapshot.
 *
 * Ages and weights of the observations are data here: the exponential decay behind them is not modelled, only that a
 * decayed weight lies between zero and the base weight.
 */
module Reconcile {
  import opened Outcomes
  import opened Sorting
  import opened TextOrder
  import opened Totals
  import opened Keys
  import opened Discrepancy
  import Agreement
  import Confidence
  import WeightedMedian

  // ---- Inputs ------------------------------------------------------------------------------------

  datatype Source = Source(id: string, sourceClass: string, adapter: string, url: string, networkId: string, passphrase: string)

  /** `fits` says that metric and subject are the requested ones; `upstreamId` is already trimmed. */
  datatype Observation<V> = Observation(
    id: string,
    cycleId: string,
    fits: bool,
    source: Source,
    value: V,
    age: real,
    baseWeight: real,
    weight: real,
    upstreamId: string,
    namedParty: bool,
    discrepancyId: string
  )

  datatype SourceError = SourceError(
    sourceId: Option<string>, sourceUrl: Option<string>, code: string, occurredAt: string, message: string)

  datatype Methodology = Methodology(
    version: string,
    formulaVersion: string,
    halfLife: real,
    expectedClasses: seq<string>,
    classWeights: map<string, real>,
    minimumVerified: int,
    threshold: real,
    coefficients: Confidence.Coefficients,
    singleSourceCap: real,
    sameUpstreamCap: real,
    sourceErrorCap: real
  )

  datatype Profile<!V> = Profile(
    cmp: (V, V) -> int,
    agrees: (V, V) -> bool,
    band: (V, V) -> Band,
    spread: (V, V) -> real,
    maximumSpread: real,
    maximumAge: Option<real>
  )

  datatype Input<!V> = Input(
    snapshotId: string,
    cycleId: string,
    at: int,
    sources: seq<Source>,
    observations: seq<Observation<V>>,
    errors: seq<SourceError>,
    priors: map<string, State>,
    methodology: Methodology,
    profile: Profile<V>
  )

  // ---- Results -----------------------------------------------------------------------------------

  datatype Status = Verified | Degraded | Unavailable

  datatype Contribution = Contribution(
    observationId: string, sourceId: string, sourceClass: string, age: real, weight: real, agrees: bool)

  datatype Finding<V> = Finding(
    id: string,
    sourceId: string,
    severity: Severity,
    lifecycle: Lifecycle,
    publication: Publication,
    cycles: int,
    observed: V,
    reference: V,
    firstObservedAt: int,
    lastObservedAt: int
  )

  datatype Outcome<V> = Outcome(
    status: Status,
    value: Option<V>,
    score: real,
    components: Confidence.Components,
    capsApplied: seq<string>,
    configured: nat,
    responded: nat,
    usable: nat,
    agreeing: nat,
    excluded: nat,
    contributions: seq<Contribution>,
    findings: seq<Finding<V>>,
    errors: seq<SourceError>,
    states: map<string, State>,
    events: seq<MeasurementEvent>
  )

  /** Which check threw. The wording, which names the offending element, is not modelled. */
  datatype Rejection =
    | BadIdentifier
    | BadMethodology
    | BadProfile
    | BadSources
    | BadObservations
    | BadErrors
    | BadPriors
    | BadWeights
    | BadMedian
    | BadComparison
    | BadUpstream
    | BadConfidence
    | DiscrepancyFault(fault: Fault)
    | CycleIgnored(reason: Ignored)
    | SnapshotRejected

  // ---- Checks ------------------------------------------------------------------------------------

  const SOURCE_CLASSES: seq<string> := ["canonical_ledger", "archive", "dex", "anchor_self_reported", "third_party_oracle"]
  const EXCLUSION_CODES: set<string> := {"network_mismatch", "excluded_source"}
  const NO_RESPONSE_CODES: set<string> := {"request_failed", "request_aborted", "invalid_configuration", "excluded_source"}

  /** The white space and line ends that `trim` removes. */
  predicate White(c: char) {
    var n := c as int;
    9 <= n <= 13 || n in {32, 160, 0x1680, 0x2028, 0x2029, 0x202F, 0x205F, 0x3000, 0xFEFF} || 0x2000 <= n <= 0x200A
  }

  predicate Blank(s: string) { forall c | c in s :: White(c) }

  predicate SoundMethodology(m: Methodology) {
    && !Blank(m.version) && !Blank(m.formulaVersion) && m.halfLife > 0.0
    && 1 <= m.minimumVerified <= SAFE_INTEGER_MAX
    && Confidence.Unit(m.threshold)
    && Confidence.Unit(m.singleSourceCap) && Confidence.Unit(m.sameUpstreamCap) && Confidence.Unit(m.sourceErrorCap)
    && m.expectedClasses != [] && (forall c | c in m.expectedClasses :: c in SOURCE_CLASSES)
    && (forall i, j | 0 <= i < j < |m.expectedClasses| :: m.expectedClasses[i] != m.expectedClasses[j])
    && (forall c | c in SOURCE_CLASSES :: c in m.classWeights && 0.0 < m.classWeights[c] <= 1.0)
    && Confidence.UnitCoefficients(m.coefficients) && Confidence.SumsToOne(m.coefficients)
  }

  predicate SoundProfile<V>(p: Profile<V>) {
    p.maximumSpread > 0.0 && (p.maximumAge.Some? ==> p.maximumAge.value > 0.0)
  }

  function SourceId(): Source -> string { (s: Source) => s.id }
  function ObservationId<V>(): Observation<V> -> string { (o: Observation<V>) => o.id }
  function ObservedSource<V>(): Observation<V> -> string { (o: Observation<V>) => o.source.id }
  function SourceClass<V>(): Observation<V> -> string { (o: Observation<V>) => o.source.sourceClass }
  function Upstream<V>(): Observation<V> -> string { (o: Observation<V>) => o.upstreamId }
  function FindingSource<V>(): Finding<V> -> string { (f: Finding<V>) => f.sourceId }
  function EventKey(): MeasurementEvent -> string { (e: MeasurementEvent) => e.id }

  function ErrorKey(): SourceError -> string {
    (e: SourceError) => (if e.sourceId.Some? then e.sourceId.value else "") + ":" + e.code + ":" + e.occurredAt
  }

  predicate SoundSources(sources: seq<Source>) {
    DistinctBy(sources, SourceId()) && forall s | s in sources :: Identifier(s.id)
  }

  /** An observation fits the request and comes from a source configured exactly as it says. */
  predicate SoundObservation<V>(o: Observation<V>, cycleId: string, sources: seq<Source>) {
    o.fits && o.cycleId == cycleId && Identifier(o.id) && o.source in sources
  }

  predicate SoundObservations<V(==)>(observations: seq<Observation<V>>, cycleId: string, sources: seq<Source>) {
    && DistinctBy(observations, ObservationId()) && DistinctBy(observations, ObservedSource())
    && forall o | o in observations :: SoundObservation(o, cycleId, sources)
  }

  predicate SoundError(e: SourceError, sources: seq<Source>) {
    e.sourceId.Some? ==>
      exists s :: s in sources && s.id == e.sourceId.value && (e.sourceUrl.Some? ==> e.sourceUrl.value == s.url)
  }

  predicate SoundErrors(errors: seq<SourceError>, sources: seq<Source>) {
    forall e | e in errors :: SoundError(e, sources)
  }

  predicate SoundPriors(priors: map<string, State>, sources: seq<Source>) {
    forall k | k in priors :: Identifier(k) && Valid(priors[k]) && priors[k].sourceId == k && k in KeysOf(sources, SourceId())
  }

  // ---- Selection ---------------------------------------------------------------------------------

  function ErroredSources(errors: seq<SourceError>): set<string> {
    set e | e in errors && e.sourceId.Some? :: e.sourceId.value
  }

  function UnlessErrored<V>(errored: set<string>): Observation<V> -> seq<Observation<V>> {
    (o: Observation<V>) => if o.source.id in errored then [] else [o]
  }

  function IfUsable<V>(maximumAge: Option<real>): Observation<V> -> seq<Observation<V>> {
    (o: Observation<V>) => if o.weight > 0.0 && (maximumAge.None? || o.age <= maximumAge.value) then [o] else []
  }

  /** The observations of sources without an error, by id. */
  function Eligible<V>(input: Input<V>): seq<Observation<V>> {
    Sort(Collect(input.observations, UnlessErrored(ErroredSources(input.errors))), ByKey(ObservationId()))
  }

  function Usable<V>(input: Input<V>): seq<Observation<V>> { Collect(Eligible(input), IfUsable(input.profile.maximumAge)) }

  function AsReading<V>(): Observation<V> -> seq<WeightedMedian.Reading<V>> {
    (o: Observation<V>) => [WeightedMedian.Reading(o.id, o.value, o.weight)]
  }

  function Responded<V>(input: Input<V>): set<string> {
    KeysOf(input.observations, ObservedSource())
    + set e | e in input.errors && e.sourceId.Some? && e.code !in NO_RESPONSE_CODES :: e.sourceId.value
  }

  function Excluded(errors: seq<SourceError>): set<string> {
    set e | e in errors && e.sourceId.Some? && e.code in EXCLUSION_CODES :: e.sourceId.value
  }

  // ---- Confidence --------------------------------------------------------------------------------

  function AsVote<V>(profile: Profile<V>, reference: V): Observation<V> -> seq<Agreement.Vote> {
    (o: Observation<V>) => [Agreement.Vote(o.weight, profile.agrees(o.value, reference))]
  }

  function EffectiveWeight<V>(): Observation<V> -> real { (o: Observation<V>) => o.weight }
  function BaseWeight<V>(): Observation<V> -> real { (o: Observation<V>) => o.baseWeight }

  function WidestSpread<V>(profile: Profile<V>, usable: seq<Observation<V>>, reference: V): real {
    if usable == [] then 0.0
    else
      var before, last := WidestSpread(profile, usable[..|usable| - 1], reference), profile.spread(usable[|usable| - 1].value, reference);
      if last > before then last else before
  }

  function SpreadScore(widest: real, maximum: real): real
    requires maximum > 0.0
  {
    var share := widest / maximum;
    1.0 - (if share < 1.0 then share else 1.0)
  }

  function Classes<V>(usable: seq<Observation<V>>): set<string> { KeysOf(usable, SourceClass()) }

  function Upstreams<V>(usable: seq<Observation<V>>): set<string> { KeysOf(usable, Upstream()) }

  function Expected(m: Methodology): set<string> { set c | c in m.expectedClasses }

  function Components<V>(input: Input<V>, usable: seq<Observation<V>>, reference: V, agreement: real): Confidence.Components
    requires |usable| <= |input.sources| && input.profile.maximumSpread > 0.0
  {
    Confidence.Components(
      agreement,
      Agreement.Ratio(Sum(usable, EffectiveWeight()), Sum(usable, BaseWeight())),
      Agreement.Availability(|usable|, |input.sources|),
      Agreement.Diversity(Classes(usable), Expected(input.methodology)),
      SpreadScore(WidestSpread(input.profile, usable, reference), input.profile.maximumSpread))
  }

  function Caps(m: Methodology, usable: nat, upstreams: nat, errors: nat): seq<Confidence.Cap> {
    [ Confidence.Cap("single_source", m.singleSourceCap, usable == 1),
      Confidence.Cap("same_upstream_replicas", m.sameUpstreamCap, usable > 1 && upstreams == 1),
      Confidence.Cap("source_error", m.sourceErrorCap, errors > 0) ]
  }

  // ---- Discrepancies -----------------------------------------------------------------------------

  datatype Progress<V> = Progress(states: map<string, State>, events: seq<MeasurementEvent>, findings: seq<Finding<V>>)

  /** Advances the discrepancy of one source by its deviation from the reference. */
  function AdvanceSource<V>(input: Input<V>, o: Observation<V>, reference: V): Result<Advanced, Rejection> {
    var prior := if o.source.id in input.priors then Some(input.priors[o.source.id]) else None;
    var discrepancyId :=
      if prior.Some? && prior.value.lifecycle == Open then prior.value.discrepancyId else o.discrepancyId;
    match Advance(prior, discrepancyId, o.source.id, o.namedParty, input.methodology.version,
                  Cycle(input.cycleId, input.at, input.profile.band(o.value, reference)))
    case Err(fault) => Err(DiscrepancyFault(fault))
    case Ok(a) => if a.ignored.Some? then Err(CycleIgnored(a.ignored.value)) else Ok(a)
  }

  function FindingOf<V>(s: State, sourceId: string, observed: V, reference: V): Finding<V> {
    Finding(s.discrepancyId, sourceId, s.severity, s.lifecycle, s.publication, s.cycles, observed, reference,
            s.firstObservedAt, s.lastObservedAt)
  }

  function Extend<V>(p: Progress<V>, o: Observation<V>, reference: V, a: Advanced): Progress<V> {
    match a.state
    case None => p.(events := p.events + a.events)
    case Some(s) =>
      Progress(p.states[o.source.id := s], p.events + a.events, p.findings + [FindingOf(s, o.source.id, o.value, reference)])
  }

  function AdvanceAll<V>(input: Input<V>, usable: seq<Observation<V>>, reference: V): Result<Progress<V>, Rejection> {
    if usable == [] then Ok(Progress(input.priors, [], []))
    else
      match AdvanceAll(input, usable[..|usable| - 1], reference)
      case Err(r) => Err(r)
      case Ok(p) =>
        match AdvanceSource(input, usable[|usable| - 1], reference)
        case Err(r) => Err(r)
        case Ok(a) => Ok(Extend(p, usable[|usable| - 1], reference, a))
  }

  // ---- The snapshot ------------------------------------------------------------------------------

  function IfAgrees<V>(profile: Profile<V>, reference: V): Observation<V> -> seq<Observation<V>> {
    (o: Observation<V>) => if profile.agrees(o.value, reference) then [o] else []
  }

  function AsContribution<V>(profile: Profile<V>, reference: V): Observation<V> -> seq<Contribution> {
    (o: Observation<V>) =>
      [Contribution(o.id, o.source.id, o.source.sourceClass, o.age, o.weight, profile.agrees(o.value, reference))]
  }

  /** The rules of the snapshot schema that depend on what was computed. */
  predicate SoundSnapshot<V>(o: Outcome<V>, m: Methodology) {
    && o.responded <= o.configured && o.usable <= o.responded && o.agreeing <= o.usable && o.excluded <= o.configured
    && Confidence.Unit(o.score) && |m.version| <= 100 && |m.formulaVersion| <= 100
  }

  function Closed<V>(o: Outcome<V>, m: Methodology): Result<Outcome<V>, Rejection> {
    if SoundSnapshot(o, m) then Ok(o) else Err(SnapshotRejected)
  }

  const NO_COMPONENTS := Confidence.Components(0.0, 0.0, 0.0, 0.0, 0.0)

  function NoValue<V>(input: Input<V>): Outcome<V> {
    Outcome(Unavailable, None, 0.0, NO_COMPONENTS, [], |input.sources|, |Responded(input)|, 0, 0, |Excluded(input.errors)|,
            [], [], Sort(input.errors, ByKey(ErrorKey())), input.priors, [])
  }

  predicate IsDegraded(m: Methodology, usable: nat, errors: nat, excluded: nat, c: Confidence.Components, score: real) {
    || usable < m.minimumVerified || errors > 0 || excluded > 0
    || c.availability < 1.0 || c.agreement < 1.0 || score < m.threshold
  }

  function WithValue<V>(input: Input<V>, usable: seq<Observation<V>>, reference: V, s: Confidence.Score, p: Progress<V>): Outcome<V> {
    var excluded := |Excluded(input.errors)|;
    Outcome(if IsDegraded(input.methodology, |usable|, |input.errors|, excluded, s.components, s.score) then Degraded else Verified,
            Some(reference), s.score, s.components, s.capsApplied, |input.sources|, |Responded(input)|, |usable|,
            |Collect(usable, IfAgrees(input.profile, reference))|, excluded,
            Collect(usable, AsContribution(input.profile, reference)),
            Sort(p.findings, ByKey(FindingSource())), Sort(input.errors, ByKey(ErrorKey())), p.states,
            Sort(p.events, ByKey(EventKey())))
  }

  predicate SoundComparison<V>(profile: Profile<V>, o: Observation<V>, reference: V) {
    && profile.spread(o.value, reference) >= 0.0
    && (profile.band(o.value, reference) == WithinTolerance <==> profile.agrees(o.value, reference))
  }

  function ScoreOf<V(==)>(input: Input<V>, usable: seq<Observation<V>>, reference: V): Result<Confidence.Score, Rejection> {
    if !(forall o | o in usable :: SoundComparison(input.profile, o, reference)) then Err(BadComparison)
    else
      var agreement := Agreement.WeightedAgreement(Collect(usable, AsVote(input.profile, reference)));
      if agreement.None? || |usable| > |input.sources| || input.profile.maximumSpread <= 0.0 then Err(BadConfidence)
      else if "" in Upstreams(usable) then Err(BadUpstream)
      else
        match Confidence.Compute(Components(input, usable, reference, agreement.value.score), input.methodology.coefficients,
                                 Caps(input.methodology, |usable|, |Upstreams(usable)|, |input.errors|))
        case Err(_) => Err(BadConfidence)
        case Ok(s) => Ok(s)
  }

  /** What follows once the median gave a reference value. */
  function Judge<V(==)>(input: Input<V>, usable: seq<Observation<V>>, reference: V): Result<Outcome<V>, Rejection> {
    match ScoreOf(input, usable, reference)
    case Err(r) => Err(r)
    case Ok(s) =>
      match AdvanceAll(input, usable, reference)
      case Err(r) => Err(r)
      case Ok(p) => Closed(WithValue(input, usable, reference, s, p), input.methodology)
  }

  function FirstRejection<V(==)>(input: Input<V>): Option<Rejection> {
    if !Identifier(input.snapshotId) || !Identifier(input.cycleId) then Some(BadIdentifier)
    else if !SoundMethodology(input.methodology) then Some(BadMethodology)
    else if !SoundProfile(input.profile) then Some(BadProfile)
    else if !SoundSources(input.sources) then Some(BadSources)
    else if !SoundObservations(input.observations, input.cycleId, input.sources) then Some(BadObservations)
    else if !SoundErrors(input.errors, input.sources) then Some(BadErrors)
    else if !SoundPriors(input.priors, input.sources) then Some(BadPriors)
    else if exists o :: o in Eligible(input) && o.baseWeight <= 0.0 then Some(BadWeights)
    else None
  }

  function Answer<V(==)>(input: Input<V>): Result<Outcome<V>, Rejection> {
    match WeightedMedian.Compute(Collect(Usable(input), AsReading()), input.profile.cmp)
    case Err(_) => Err(BadMedian)
    case Ok(None) => Closed(NoValue(input), input.methodology)
    case Ok(Some(median)) => Judge(input, Usable(input), median.value)
  }

  function ReconcileCycle<V(==)>(input: Input<V>): Result<Outcome<V>, Rejection> {
    if FirstRejection(input).Some? then Err(FirstRejection(input).value) else Answer(input)
  }
}
