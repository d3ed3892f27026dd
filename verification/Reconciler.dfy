/** The reconciliation cycle as the program runs it: loops that fill sets, maps and event lists. */
module Reconciler {
  import opened Outcomes
  import opened Sorting
  import opened Totals
  import opened Keys
  import opened Discrepancy
  import opened Reconcile
  import Agreement
  import Confidence
  import WeightedMedian

  method CheckObservations<V(==)>(observations: seq<Observation<V>>, cycleId: string, sources: seq<Source>) returns (sound: bool)
    ensures sound <==> SoundObservations(observations, cycleId, sources)
  {
    var observationIds: set<string>, sourceIds: set<string> := {}, {};
    for n := 0 to |observations|
      invariant observationIds == KeysOf(observations[..n], ObservationId())
      invariant sourceIds == KeysOf(observations[..n], ObservedSource())
      invariant DistinctBy(observations[..n], ObservationId()) && DistinctBy(observations[..n], ObservedSource())
      invariant forall o | o in observations[..n] :: SoundObservation(o, cycleId, sources)
    {
      var o := observations[n];
      KeysGrow(observations, n, ObservationId());
      KeysGrow(observations, n, ObservedSource());
      if o.id in observationIds || o.source.id in sourceIds { return false; }
      if !SoundObservation(o, cycleId, sources) {
        assert o in observations;
        return false;
      }
      observationIds := observationIds + {o.id};
      sourceIds := sourceIds + {o.source.id};
      assert observations[..n + 1] == observations[..n] + [o];
    }
    assert observations[..|observations|] == observations;
    sound := true;
  }

  lemma {:induction false} RejectionStays<V>(input: Input<V>, usable: seq<Observation<V>>, reference: V, n: nat)
    requires n <= |usable| && AdvanceAll(input, usable[..n], reference).Err?
    ensures AdvanceAll(input, usable, reference) == AdvanceAll(input, usable[..n], reference)
    decreases |usable| - n
  {
    if n == |usable| {
      assert usable[..n] == usable;
    } else {
      assert usable[..n + 1][..n] == usable[..n];
      RejectionStays(input, usable, reference, n + 1);
    }
  }

  method AdvanceSources<V>(input: Input<V>, usable: seq<Observation<V>>, reference: V) returns (r: Result<Progress<V>, Rejection>)
    ensures r == AdvanceAll(input, usable, reference)
  {
    var states, events, findings := input.priors, [], [];
    for n := 0 to |usable|
      invariant AdvanceAll(input, usable[..n], reference) == Ok(Progress(states, events, findings))
    {
      assert usable[..n + 1][..n] == usable[..n];
      var o := usable[n];
      var result := AdvanceSource(input, o, reference);
      if result.Err? {
        RejectionStays(input, usable, reference, n + 1);
        return Err(result.error);
      }
      events := events + result.value.events;
      if result.value.state.Some? {
        var s := result.value.state.value;
        states := states[o.source.id := s];
        findings := findings + [FindingOf(s, o.source.id, o.value, reference)];
      }
    }
    assert usable[..|usable|] == usable;
    r := Ok(Progress(states, events, findings));
  }

  method Score<V(==)>(input: Input<V>, usable: seq<Observation<V>>, reference: V) returns (r: Result<Confidence.Score, Rejection>)
    ensures r == ScoreOf(input, usable, reference)
  {
    if !(forall o | o in usable :: SoundComparison(input.profile, o, reference)) { return Err(BadComparison); }
    var agreement := Agreement.ComputeWeightedAgreement(Collect(usable, AsVote(input.profile, reference)));
    if agreement.None? || |usable| > |input.sources| || input.profile.maximumSpread <= 0.0 { return Err(BadConfidence); }
    if "" in Upstreams(usable) { return Err(BadUpstream); }
    var confidence := Confidence.ComputeConfidence(
      Components(input, usable, reference, agreement.value.score), input.methodology.coefficients,
      Caps(input.methodology, |usable|, |Upstreams(usable)|, |input.errors|));
    r := match confidence case Ok(s) => Ok(s) case Err(_) => Err(BadConfidence);
  }

  method Check<V(==)>(input: Input<V>) returns (r: Option<Rejection>)
    ensures r == FirstRejection(input)
  {
    if !Identifier(input.snapshotId) || !Identifier(input.cycleId) { return Some(BadIdentifier); }
    if !SoundMethodology(input.methodology) { return Some(BadMethodology); }
    if !SoundProfile(input.profile) { return Some(BadProfile); }
    var distinct := CheckDistinct(input.sources, SourceId());
    if !distinct || exists s :: s in input.sources && !Identifier(s.id) { return Some(BadSources); }
    var sound := CheckObservations(input.observations, input.cycleId, input.sources);
    if !sound { return Some(BadObservations); }
    if !SoundErrors(input.errors, input.sources) { return Some(BadErrors); }
    if !SoundPriors(input.priors, input.sources) { return Some(BadPriors); }
    if exists o :: o in Eligible(input) && o.baseWeight <= 0.0 { return Some(BadWeights); }
    r := None;
  }

  method ReconcileMetric<V(==)>(input: Input<V>) returns (r: Result<Outcome<V>, Rejection>)
    ensures r == ReconcileCycle(input)
  {
    var rejection := Check(input);
    if rejection.Some? { return Err(rejection.value); }
    var usable := Usable(input);
    var median := WeightedMedian.ComputeWeightedMedian(Collect(usable, AsReading()), input.profile.cmp);
    if median.Err? { return Err(BadMedian); }
    if median.value.None? { return Closed(NoValue(input), input.methodology); }
    var reference := median.value.value.value;
    var score := Score(input, usable, reference);
    if score.Err? { return Err(score.error); }
    var progress := AdvanceSources(input, usable, reference);
    if progress.Err? { return Err(progress.error); }
    r := Closed(WithValue(input, usable, reference, score.value, progress.value), input.methodology);
  }
}
