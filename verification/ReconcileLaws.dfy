/** What a reconciliation result means, and what it does not depend on. */
module ReconcileLaws {
  import opened Outcomes
  import opened Sorting
  import opened TextOrder
  import opened Totals
  import opened Keys
  import opened Discrepancy
  import opened Reconcile
  import Agreement
  import Confidence
  import WeightedMedian
  import MedianLaws

  /** Decay never raises a weight above its base. */
  predicate Decays<V(==)>(observations: seq<Observation<V>>) {
    forall o | o in observations && o.baseWeight > 0.0 :: 0.0 <= o.weight <= o.baseWeight
  }

  // ---- The usable observations -------------------------------------------------------------------

  predicate IsUsable<V>(input: Input<V>, o: Observation<V>) {
    && o.source.id !in ErroredSources(input.errors) && o.weight > 0.0
    && (input.profile.maximumAge.None? || o.age <= input.profile.maximumAge.value)
  }

  lemma {:induction false} EligibleExactly<V(!new)>(input: Input<V>, o: Observation<V>)
    ensures o in Eligible(input) <==> o in input.observations && o.source.id !in ErroredSources(input.errors)
  {
    var unerrored := UnlessErrored<V>(ErroredSources(input.errors));
    SelectedExactly(input.observations, unerrored, o);
    SortedByKey(Collect(input.observations, unerrored), ObservationId());
  }

  lemma {:induction false} UsableExactly<V(!new)>(input: Input<V>, o: Observation<V>)
    ensures o in Usable(input) <==> o in input.observations && IsUsable(input, o)
    ensures o in Usable(input) ==> o in Eligible(input)
  {
    EligibleExactly(input, o);
    SelectedExactly(Eligible(input), IfUsable(input.profile.maximumAge), o);
  }

  lemma {:induction false} UsableDistinct<V(!new)>(input: Input<V>, key: Observation<V> -> string)
    requires DistinctBy(input.observations, key)
    ensures DistinctBy(Usable(input), key)
  {
    var unerrored := UnlessErrored<V>(ErroredSources(input.errors));
    var kept := Collect(input.observations, unerrored);
    SelectionDistinct(input.observations, unerrored, key);
    ByKeyIsTotal(ObservationId<V>());
    SortCorrect(kept, ByKey(ObservationId()));
    DistinctForgetsOrder(kept, Eligible(input), key);
    SelectionDistinct(Eligible(input), IfUsable(input.profile.maximumAge), key);
  }

  lemma {:induction false} InKeys<T>(s: seq<T>, key: T -> string, x: T)
    requires x in s
    ensures key(x) in KeysOf(s, key)
  {
    var i :| 0 <= i < |s| && s[i] == x;
  }

  lemma {:induction false} SubsetCount(a: set<string>, b: set<string>)
    requires a <= b
    ensures |a| <= |b| && (|a| == |b| ==> a == b)
  {
    Agreement.SubsetSmaller(a, b);
  }

  lemma {:induction false} ObservedConfigured<V>(observations: seq<Observation<V>>, sources: seq<Source>)
    requires forall o | o in observations :: o.source in sources
    ensures KeysOf(observations, ObservedSource()) <= KeysOf(sources, SourceId())
  {
    forall i | 0 <= i < |observations| ensures ObservedSource()(observations[i]) in KeysOf(sources, SourceId()) {
      assert observations[i] in observations;
      InKeys(sources, SourceId(), observations[i].source);
    }
  }

  lemma {:induction false} UsableResponded<V(!new)>(input: Input<V>)
    ensures KeysOf(Usable(input), ObservedSource()) <= Responded(input)
  {
    var usable := Usable(input);
    forall i | 0 <= i < |usable| ensures ObservedSource()(usable[i]) in Responded(input) {
      assert usable[i] in usable;
      UsableExactly(input, usable[i]);
      InKeys(input.observations, ObservedSource(), usable[i]);
    }
  }

  /** The inputs passed the checks on sources, observations and errors. */
  predicate Checked<V(==)>(input: Input<V>) {
    SoundSources(input.sources) && SoundObservations(input.observations, input.cycleId, input.sources)
    && SoundErrors(input.errors, input.sources)
  }

  /** Usable sources responded, and whatever responded or was excluded is configured. */
  lemma {:induction false} SourceSets<V(!new)>(input: Input<V>)
    requires Checked(input)
    ensures KeysOf(Usable(input), ObservedSource()) <= Responded(input) <= KeysOf(input.sources, SourceId())
    ensures Excluded(input.errors) <= KeysOf(input.sources, SourceId())
  {
    UsableResponded(input);
    ObservedConfigured(input.observations, input.sources);
  }

  lemma {:induction false} SourcesCounted<V(!new)>(input: Input<V>)
    requires Checked(input)
    ensures |KeysOf(input.sources, SourceId())| == |input.sources|
    ensures |KeysOf(Usable(input), ObservedSource())| == |Usable(input)|
  {
    UsableDistinct(input, ObservedSource());
    DistinctCount(Usable(input), ObservedSource());
    DistinctCount(input.sources, SourceId());
  }

  /** Agreeing, usable, responding and configured sources are counted in that order. */
  lemma {:induction false} CountsInOrder<V(!new)>(input: Input<V>, reference: V)
    requires Checked(input)
    ensures |Collect(Usable(input), IfAgrees(input.profile, reference))| <= |Usable(input)| <= |Responded(input)| <= |input.sources|
    ensures |Excluded(input.errors)| <= |input.sources|
    ensures |Usable(input)| == |input.sources| ==> KeysOf(Usable(input), ObservedSource()) == KeysOf(input.sources, SourceId())
  {
    SourceSets(input);
    SourcesCounted(input);
    SubsetCount(KeysOf(Usable(input), ObservedSource()), Responded(input));
    SubsetCount(Responded(input), KeysOf(input.sources, SourceId()));
    SubsetCount(Excluded(input.errors), KeysOf(input.sources, SourceId()));
    SubsetCount(KeysOf(Usable(input), ObservedSource()), KeysOf(input.sources, SourceId()));
    SelectionShorter(Usable(input), IfAgrees(input.profile, reference));
  }

  // ---- The components ----------------------------------------------------------------------------

  /** The agreement score is 1 exactly when every usable observation agrees. */
  lemma {:induction false} AgreementScore<V>(profile: Profile<V>, usable: seq<Observation<V>>, reference: V)
    requires usable != [] && forall o | o in usable :: o.weight > 0.0
    ensures var r := Agreement.WeightedAgreement(Collect(usable, AsVote(profile, reference)));
      && r.Some? && Confidence.Unit(r.value.score)
      && (r.value.score == 1.0 <==> forall o | o in usable :: profile.agrees(o.value, reference))
  {
    var votes := Collect(usable, AsVote(profile, reference));
    CollectMap(usable, AsVote(profile, reference));
    assert forall i | 0 <= i < |usable| :: votes[i] == Agreement.Vote(usable[i].weight, profile.agrees(usable[i].value, reference));
    Agreement.ScoreOneExactly(votes);
    if forall v | v in votes :: v.agrees {
      forall o | o in usable ensures profile.agrees(o.value, reference) {
        var i :| 0 <= i < |usable| && usable[i] == o;
        assert votes[i] in votes;
      }
    }
  }

  lemma {:induction false} WidestAtLeast<V>(profile: Profile<V>, usable: seq<Observation<V>>, reference: V)
    ensures WidestSpread(profile, usable, reference) >= 0.0
  {
    if usable != [] { WidestAtLeast(profile, usable[..|usable| - 1], reference); }
  }

  lemma {:induction false} FreshnessUnit<V>(usable: seq<Observation<V>>)
    requires forall o | o in usable :: 0.0 < o.weight <= o.baseWeight
    ensures Confidence.Unit(Agreement.Ratio(Sum(usable, EffectiveWeight()), Sum(usable, BaseWeight())))
  {
    SumAtMost(usable, EffectiveWeight(), BaseWeight());
    SumPositive(usable, EffectiveWeight());
    Agreement.RatioUnit(Sum(usable, EffectiveWeight()), Sum(usable, BaseWeight()));
  }

  lemma {:induction false} ExpectedCount(m: Methodology)
    requires SoundMethodology(m)
    ensures Expected(m) != {}
  {
    assert m.expectedClasses[0] in Expected(m);
  }

  lemma {:induction false} SpreadUnit(widest: real, maximum: real)
    requires widest >= 0.0 && maximum > 0.0
    ensures Confidence.Unit(SpreadScore(widest, maximum))
  {
    assert widest / maximum >= 0.0;
  }

  lemma {:induction false} ComponentsUnit<V>(input: Input<V>, usable: seq<Observation<V>>, reference: V, agreement: real)
    requires usable != [] && |usable| <= |input.sources| && input.profile.maximumSpread > 0.0
    requires SoundMethodology(input.methodology) && Confidence.Unit(agreement)
    requires forall o | o in usable :: 0.0 < o.weight <= o.baseWeight
    ensures Confidence.UnitComponents(Components(input, usable, reference, agreement))
  {
    FreshnessUnit(usable);
    Agreement.AvailabilityOneExactly(|usable|, |input.sources|);
    ExpectedCount(input.methodology);
    Agreement.DiversityOneExactly(Classes(usable), Expected(input.methodology));
    WidestAtLeast(input.profile, usable, reference);
    SpreadUnit(WidestSpread(input.profile, usable, reference), input.profile.maximumSpread);
  }

  lemma {:induction false} UsableWeights<V(!new)>(input: Input<V>)
    requires Decays(input.observations) && forall o | o in Eligible(input) :: o.baseWeight > 0.0
    ensures forall o | o in Usable(input) :: 0.0 < o.weight <= o.baseWeight
  {
    forall o | o in Usable(input) ensures 0.0 < o.weight <= o.baseWeight { UsableExactly(input, o); }
  }

  lemma {:induction false} ScoreThrows<V(!new)>(input: Input<V>, usable: seq<Observation<V>>, reference: V)
    requires usable != [] && |usable| <= |input.sources| && input.profile.maximumSpread > 0.0
    requires SoundMethodology(input.methodology) && forall o | o in usable :: 0.0 < o.weight <= o.baseWeight
    ensures ScoreOf(input, usable, reference) != Err(BadConfidence)
    ensures ScoreOf(input, usable, reference).Ok? <==>
              (forall o | o in usable :: SoundComparison(input.profile, o, reference)) && "" !in Upstreams(usable)
  {
    AgreementScore(input.profile, usable, reference);
    var agreement := Agreement.WeightedAgreement(Collect(usable, AsVote(input.profile, reference)));
    ComponentsUnit(input, usable, reference, agreement.value.score);
    CapsSound(input.methodology, |usable|, |Upstreams(usable)|, |input.errors|);
  }

  /** What passing all the checks gives, for the lemmas that need only parts of it. */
  lemma {:induction false} Passed<V(!new)>(input: Input<V>)
    requires FirstRejection(input).None?
    ensures Checked(input) && SoundMethodology(input.methodology) && input.profile.maximumSpread > 0.0
    ensures forall o | o in Eligible(input) :: o.baseWeight > 0.0
  {}

  /** A score fails only over the comparison functions of the profile or an empty upstream id. */
  lemma {:induction false} ScoreThrowsExactly<V(!new)>(input: Input<V>, reference: V)
    requires FirstRejection(input).None? && Decays(input.observations) && Usable(input) != []
    ensures ScoreOf(input, Usable(input), reference) != Err(BadConfidence)
    ensures ScoreOf(input, Usable(input), reference).Ok? <==>
              (forall o | o in Usable(input) :: SoundComparison(input.profile, o, reference)) && "" !in Upstreams(Usable(input))
  {
    Passed(input);
    UsableWeights(input);
    CountsInOrder(input, reference);
    ScoreThrows(input, Usable(input), reference);
  }

  lemma {:induction false} CapsSound(m: Methodology, usable: nat, upstreams: nat, errors: nat)
    requires SoundMethodology(m)
    ensures forall cap | cap in Caps(m, usable, upstreams, errors) :: Confidence.SoundCap(cap)
  {}

  // ---- The closing parse -------------------------------------------------------------------------

  predicate LongNames(m: Methodology) { |m.version| > 100 || |m.formulaVersion| > 100 }

  lemma {:induction false} ValueCloses<V(!new)>(input: Input<V>, reference: V, s: Confidence.Score, p: Progress<V>)
    requires Checked(input) && ScoreOf(input, Usable(input), reference) == Ok(s)
    ensures SoundSnapshot(WithValue(input, Usable(input), reference, s, p), input.methodology) <==> !LongNames(input.methodology)
  {
    CountsInOrder(input, reference);
    ScoreIsBounded(input, Usable(input), reference, s);
  }

  lemma {:induction false} ScoreIsBounded<V>(input: Input<V>, usable: seq<Observation<V>>, reference: V, s: Confidence.Score)
    requires ScoreOf(input, usable, reference) == Ok(s)
    ensures var m := input.methodology;
      && Confidence.Unit(s.score)
      && (|usable| == 1 ==> s.score <= Confidence.Round4(m.singleSourceCap))
      && (|usable| > 1 && |Upstreams(usable)| == 1 ==> s.score <= Confidence.Round4(m.sameUpstreamCap))
      && (input.errors != [] ==> s.score <= Confidence.Round4(m.sourceErrorCap))
      && s.score <= Confidence.Round4((1.0 + Confidence.TOLERANCE) * s.components.diversity)
      && Confidence.Unit(s.components.diversity)
      && s.score <= Confidence.Round4(Confidence.Share(s.components.diversity, Confidence.CoefficientTotal(m.coefficients)))
  {
    var agreement := Agreement.WeightedAgreement(Collect(usable, AsVote(input.profile, reference))).value.score;
    var caps := Caps(input.methodology, |usable|, |Upstreams(usable)|, |input.errors|);
    Confidence.ScoreBounds(Components(input, usable, reference, agreement), input.methodology.coefficients, caps);
    assert caps[0] in caps && caps[1] in caps && caps[2] in caps;
  }

  lemma {:induction false} JudgeCloses<V(!new)>(input: Input<V>, reference: V)
    requires Checked(input)
    ensures Judge(input, Usable(input), reference) == Err(SnapshotRejected) ==> LongNames(input.methodology)
    ensures LongNames(input.methodology) ==> Judge(input, Usable(input), reference).Err?
  {
    var r := ScoreOf(input, Usable(input), reference);
    var a := AdvanceAll(input, Usable(input), reference);
    if r.Ok? && a.Ok? { ValueCloses(input, reference, r.value, a.value); }
    AdvanceNeverCloses(input, Usable(input), reference);
  }

  lemma {:induction false} AdvanceNeverCloses<V>(input: Input<V>, usable: seq<Observation<V>>, reference: V)
    ensures AdvanceAll(input, usable, reference) != Err(SnapshotRejected)
  {
    if usable != [] { AdvanceNeverCloses(input, usable[..|usable| - 1], reference); }
  }

  /** The parse that closes a cycle never rejects the counts or the score: only version names over 100 characters. */
  lemma {:induction false} ClosingParseRejectsExactly<V(!new)>(input: Input<V>)
    ensures ReconcileCycle(input) == Err(SnapshotRejected) ==> LongNames(input.methodology)
    ensures LongNames(input.methodology) ==> ReconcileCycle(input).Err?
  {
    if FirstRejection(input).None? {
      Passed(input);
      NoValueCloses(input);
      var median := WeightedMedian.Compute(Collect(Usable(input), AsReading()), input.profile.cmp);
      if median.Ok? && median.value.Some? { JudgeCloses(input, median.value.value.value); }
    }
  }

  lemma {:induction false} NoValueCloses<V(!new)>(input: Input<V>)
    requires Checked(input)
    ensures SoundSnapshot(NoValue(input), input.methodology) <==> !LongNames(input.methodology)
  {
    SourceSets(input);
    SourcesCounted(input);
    SubsetCount(Responded(input), KeysOf(input.sources, SourceId()));
    SubsetCount(Excluded(input.errors), KeysOf(input.sources, SourceId()));
  }

  // ---- The meaning of verified -------------------------------------------------------------------

  /** How a result with a value came about. */
  lemma {:induction false} ValueShape<V(!new)>(input: Input<V>) returns (reference: V, s: Confidence.Score, p: Progress<V>)
    requires Answer(input).Ok? && Answer(input).value.value.Some?
    ensures Usable(input) != []
    ensures ScoreOf(input, Usable(input), reference) == Ok(s) && AdvanceAll(input, Usable(input), reference) == Ok(p)
    ensures Answer(input).value == WithValue(input, Usable(input), reference, s, p)
  {
    var median := WeightedMedian.Compute(Collect(Usable(input), AsReading()), input.profile.cmp).value.value;
    reference := median.value;
    s := ScoreOf(input, Usable(input), reference).value;
    p := AdvanceAll(input, Usable(input), reference).value;
  }

  lemma {:induction false} ScoreComponents<V>(input: Input<V>, usable: seq<Observation<V>>, reference: V, s: Confidence.Score)
    requires ScoreOf(input, usable, reference) == Ok(s)
    ensures var agreement := Agreement.WeightedAgreement(Collect(usable, AsVote(input.profile, reference)));
      agreement.Some? && |usable| <= |input.sources| && input.profile.maximumSpread > 0.0
      && s.components == Components(input, usable, reference, agreement.value.score)
  {}

  /** The status, told by what it stands for instead of by scores. */
  lemma {:induction false} StatusExactly<V(!new)>(input: Input<V>, usable: seq<Observation<V>>, reference: V, s: Confidence.Score)
    requires usable != [] && (forall o | o in usable :: o.weight > 0.0) && ScoreOf(input, usable, reference) == Ok(s)
    ensures var m := input.methodology;
      IsDegraded(m, |usable|, |input.errors|, |Excluded(input.errors)|, s.components, s.score)
      <==> !(&& |input.errors| == 0 && |usable| == |input.sources| && |input.sources| >= m.minimumVerified
             && (forall o | o in usable :: input.profile.agrees(o.value, reference)) && s.score >= m.threshold)
  {
    AgreementScore(input.profile, usable, reference);
    ScoreComponents(input, usable, reference, s);
    Agreement.AvailabilityOneExactly(|usable|, |input.sources|);
    if input.errors == [] { assert Excluded(input.errors) == {}; }
  }

  lemma {:induction false} StatusOfValue<V(!new)>(input: Input<V>, reference: V, s: Confidence.Score, p: Progress<V>)
    requires Usable(input) != [] && ScoreOf(input, Usable(input), reference) == Ok(s)
    requires WithValue(input, Usable(input), reference, s, p).status == Verified
    ensures s.score >= input.methodology.threshold && input.errors == []
    ensures |Usable(input)| == |input.sources| >= input.methodology.minimumVerified
    ensures forall o | o in Usable(input) :: input.profile.agrees(o.value, reference)
  {
    forall o | o in Usable(input) ensures o.weight > 0.0 { UsableExactly(input, o); }
    StatusExactly(input, Usable(input), reference, s);
  }

  /** A verified result, taken apart. */
  lemma {:induction false} VerifiedShape<V(!new)>(input: Input<V>) returns (reference: V, s: Confidence.Score)
    requires Answer(input).Ok? && Answer(input).value.status == Verified
    ensures Answer(input).value.value == Some(reference) && Answer(input).value.score == s.score && Usable(input) != []
    ensures ScoreOf(input, Usable(input), reference) == Ok(s) && s.score >= input.methodology.threshold
    ensures input.errors == [] && |Usable(input)| == |input.sources| >= input.methodology.minimumVerified
    ensures forall o | o in Usable(input) :: input.profile.agrees(o.value, reference)
  {
    var p;
    reference, s, p := ValueShape(input);
    StatusOfValue(input, reference, s, p);
  }

  lemma {:induction false} ValueCounts<V(!new)>(input: Input<V>)
    requires Answer(input).Ok? && Answer(input).value.value.Some?
    ensures var r := Answer(input).value;
      && r.agreeing == |Collect(Usable(input), IfAgrees(input.profile, r.value.value))|
      && r.usable == |Usable(input)| && r.responded == |Responded(input)| && r.configured == |input.sources|
  {
    var reference, s, p := ValueShape(input);
  }

  /** A verified result has every configured source usable and agreeing, no source error, and reached the threshold. */
  lemma {:induction false} VerifiedMeans<V(!new)>(input: Input<V>)
    requires ReconcileCycle(input).Ok? && ReconcileCycle(input).value.status == Verified
    ensures var r := ReconcileCycle(input).value;
      && r.value.Some? && input.errors == [] && r.score >= input.methodology.threshold
      && r.agreeing == r.usable == r.responded == r.configured >= input.methodology.minimumVerified
      && forall source | source in input.sources ::
           exists o :: o in input.observations && o.source == source && IsUsable(input, o)
                       && input.profile.agrees(o.value, r.value.value)
  {
    Passed(input);
    var reference, s := VerifiedShape(input);
    ValueCounts(input);
    CountsInOrder(input, reference);
    AllSelected(Usable(input), IfAgrees(input.profile, reference));
    SourcesCovered(input, reference);
  }

  lemma {:induction false} SourcesCovered<V(!new)>(input: Input<V>, reference: V)
    requires Checked(input) && |Usable(input)| == |input.sources|
    requires forall o | o in Usable(input) :: input.profile.agrees(o.value, reference)
    ensures forall source | source in input.sources ::
              exists o :: o in input.observations && o.source == source && IsUsable(input, o)
                          && input.profile.agrees(o.value, reference)
  {
    CountsInOrder(input, reference);
    forall source | source in input.sources
      ensures exists o :: o in input.observations && o.source == source && IsUsable(input, o)
                          && input.profile.agrees(o.value, reference)
    {
      var o := UsableOf(input, source);
    }
  }

  lemma {:induction false} AllSelected<T>(s: seq<T>, keep: T -> seq<T>)
    requires forall x | x in s :: keep(x) == [x]
    ensures Collect(s, keep) == s
  {
    if s != [] { AllSelected(s[..|s| - 1], keep); }
  }

  lemma {:induction false} UsableOf<V(!new)>(input: Input<V>, source: Source) returns (o: Observation<V>)
    requires Checked(input) && source in input.sources
    requires KeysOf(Usable(input), ObservedSource()) == KeysOf(input.sources, SourceId())
    ensures o in Usable(input) && o in input.observations && o.source == source && IsUsable(input, o)
  {
    InKeys(input.sources, SourceId(), source);
    var i :| 0 <= i < |Usable(input)| && ObservedSource()(Usable(input)[i]) == source.id;
    o := Usable(input)[i];
    UsableExactly(input, o);
    SameKeySameElement(input.sources, SourceId(), o.source, source);
  }

  /** The best score of a single source: it represents one class at most. */
  function BestSingle(m: Methodology): real {
    var diversity := Agreement.Ratio(1.0, |Expected(m)| as real);
    var uncapped := Confidence.Share(diversity, Confidence.CoefficientTotal(m.coefficients));
    Confidence.Round4(if m.singleSourceCap < uncapped then m.singleSourceCap else uncapped)
  }

  /** The cap on replicas, and where one source is enough the best score of one, stay below the threshold. */
  predicate Guarded(m: Methodology) {
    && Confidence.Round4(m.sameUpstreamCap) < m.threshold
    && (m.minimumVerified == 1 ==> BestSingle(m) < m.threshold)
  }

  lemma {:induction false} OneClassDiversity(classes: set<string>, expected: set<string>)
    requires |classes| <= 1 && expected != {}
    ensures Agreement.Diversity(classes, expected) <= Agreement.Ratio(1.0, |expected| as real)
  {
    Agreement.SubsetSmaller(classes * expected, classes);
    var k, n := |classes * expected| as real, |expected| as real;
    assert 0.0 < n && k <= 1.0;
    assert k / n <= 1.0 / n;
  }

  lemma {:induction false} SingleScore(m: Methodology, diversity: real, score: real)
    requires SoundMethodology(m) && Confidence.Unit(diversity) && diversity <= Agreement.Ratio(1.0, |Expected(m)| as real)
    requires score <= Confidence.Round4(m.singleSourceCap)
    requires score <= Confidence.Round4(Confidence.Share(diversity, Confidence.CoefficientTotal(m.coefficients)))
    ensures score <= BestSingle(m)
  {
    var total, best := Confidence.CoefficientTotal(m.coefficients), Agreement.Ratio(1.0, |Expected(m)| as real);
    LargerShare(diversity, best, total);
    Confidence.Round4Monotone(Confidence.Share(diversity, total), Confidence.Share(best, total));
  }

  lemma {:induction false} LargerShare(part: real, larger: real, total: real)
    requires part <= larger && total >= 0.0
    ensures Confidence.Share(part, total) <= Confidence.Share(larger, total)
  {
    assert (larger - part) * total >= 0.0;
  }

  lemma {:induction false} SingleIsBelow<V>(input: Input<V>, usable: seq<Observation<V>>, reference: V, s: Confidence.Score)
    requires SoundMethodology(input.methodology) && |usable| == 1
    requires ScoreOf(input, usable, reference) == Ok(s)
    ensures s.score <= BestSingle(input.methodology)
  {
    ScoreIsBounded(input, usable, reference, s);
    ScoreComponents(input, usable, reference, s);
    ExpectedCount(input.methodology);
    assert Classes(usable) == {SourceClass()(usable[0])};
    OneClassDiversity(Classes(usable), Expected(input.methodology));
    SingleScore(input.methodology, s.components.diversity, s.score);
  }

  /** Under guarding caps a verified result rests on two different upstreams. */
  lemma {:induction false} VerifiedNeedsTwoUpstreams<V(!new)>(input: Input<V>)
    requires ReconcileCycle(input).Ok? && ReconcileCycle(input).value.status == Verified
    requires Guarded(input.methodology)
    ensures exists a, b :: a in input.observations && b in input.observations && a.upstreamId != b.upstreamId
  {
    Passed(input);
    var reference, s := VerifiedShape(input);
    ScoreIsBounded(input, Usable(input), reference, s);
    if |Usable(input)| == 1 { SingleIsBelow(input, Usable(input), reference, s); }
    var a, b := TwoUpstreams(Usable(input));
    UsableExactly(input, a);
    UsableExactly(input, b);
  }

  /** The best rounded score when one of `classes` expected classes is missing. */
  function BestWithoutOne(classes: nat): real { Confidence.Round4((1.0 + Confidence.TOLERANCE) * WithoutOne(classes)) }

  /** The diversity that is left. */
  function WithoutOne(classes: nat): real { if classes == 0 then 0.0 else 1.0 - 1.0 / classes as real }

  lemma {:induction false} MissingClassCosts(m: Methodology, classes: set<string>)
    requires Expected(m) != {} && !(Expected(m) <= classes)
    ensures Confidence.Round4((1.0 + Confidence.TOLERANCE) * Agreement.Diversity(classes, Expected(m))) <= BestWithoutOne(|Expected(m)|)
  {
    Agreement.DiversityOneExactly(classes, Expected(m));
    Confidence.Round4Monotone((1.0 + Confidence.TOLERANCE) * Agreement.Diversity(classes, Expected(m)),
                              (1.0 + Confidence.TOLERANCE) * WithoutOne(|Expected(m)|));
  }

  /** A threshold above what is left of the score without one class makes verified results represent every expected class. */
  lemma {:induction false} VerifiedNeedsAllClasses<V(!new)>(input: Input<V>, c: string)
    requires ReconcileCycle(input).Ok? && ReconcileCycle(input).value.status == Verified
    requires BestWithoutOne(|Expected(input.methodology)|) < input.methodology.threshold && c in input.methodology.expectedClasses
    ensures exists o :: o in input.observations && o.source.sourceClass == c
  {
    VerifiedClasses(input);
    var i := ClassAt(input.methodology, Usable(input), c);
    UsableExactly(input, Usable(input)[i]);
  }

  lemma {:induction false} VerifiedClasses<V(!new)>(input: Input<V>)
    requires Answer(input).Ok? && Answer(input).value.status == Verified && input.methodology.expectedClasses != []
    requires BestWithoutOne(|Expected(input.methodology)|) < input.methodology.threshold
    ensures Expected(input.methodology) <= Classes(Usable(input))
  {
    var reference, s := VerifiedShape(input);
    ForcedByScore(input, Usable(input), reference, s);
  }

  lemma {:induction false} ForcedByScore<V>(input: Input<V>, usable: seq<Observation<V>>, reference: V, s: Confidence.Score)
    requires ScoreOf(input, usable, reference) == Ok(s) && s.score >= input.methodology.threshold
    requires BestWithoutOne(|Expected(input.methodology)|) < input.methodology.threshold && input.methodology.expectedClasses != []
    ensures Expected(input.methodology) <= Classes(usable)
  {
    var m := input.methodology;
    assert m.expectedClasses[0] in Expected(m);
    DiversityBoundsScore(input, usable, reference, s, s.components.diversity);
    if !(Expected(m) <= Classes(usable)) { MissingClassCosts(m, Classes(usable)); }
  }

  lemma {:induction false} DiversityBoundsScore<V>(input: Input<V>, usable: seq<Observation<V>>, reference: V, s: Confidence.Score,
                                                   diversity: real)
    requires ScoreOf(input, usable, reference) == Ok(s) && diversity == s.components.diversity
    ensures diversity == Agreement.Diversity(Classes(usable), Expected(input.methodology))
    ensures s.score <= Confidence.Round4((1.0 + Confidence.TOLERANCE) * diversity)
  {
    ScoreIsBounded(input, usable, reference, s);
    ScoreComponents(input, usable, reference, s);
  }

  lemma {:induction false} ClassAt<V>(m: Methodology, usable: seq<Observation<V>>, c: string) returns (i: nat)
    requires Expected(m) <= Classes(usable) && c in m.expectedClasses
    ensures i < |usable| && usable[i].source.sourceClass == c
  {
    assert c in Expected(m) && c in Classes(usable);
    i :| 0 <= i < |usable| && SourceClass()(usable[i]) == c;
  }

  lemma {:induction false} TwoUpstreams<V>(usable: seq<Observation<V>>) returns (a: Observation<V>, b: Observation<V>)
    requires usable != [] && |Upstreams(usable)| != 1
    ensures a in usable && b in usable && a.upstreamId != b.upstreamId
  {
    var first := usable[0].upstreamId;
    InKeys(usable, Upstream(), usable[0]);
    if Upstreams(usable) == {first} { assert false; }
    var other :| other in Upstreams(usable) && other != first;
    var i :| 0 <= i < |usable| && Upstream()(usable[i]) == other;
    a, b := usable[0], usable[i];
  }

  /** The bounds that the depth and the trustline methodology configure. */
  predicate OneDerivationBounds(m: Methodology) { m.threshold == 0.9 && m.singleSourceCap == 0.6 && m.sameUpstreamCap == 0.7 }

  lemma {:induction false} BoundsGuard(m: Methodology)
    requires OneDerivationBounds(m)
    ensures Guarded(m)
  {
    Confidence.Round4Fixed(6000);
    Confidence.Round4Fixed(7000);
    var uncapped := Confidence.Share(Agreement.Ratio(1.0, |Expected(m)| as real), Confidence.CoefficientTotal(m.coefficients));
    Confidence.Round4Monotone(if m.singleSourceCap < uncapped then m.singleSourceCap else uncapped, 0.6);
  }

  /** Depth and trustline observations name one constant upstream, so under their bounds no result is ever verified. */
  lemma {:induction false} OneDerivationNeverVerified<V(!new)>(input: Input<V>, family: string)
    requires OneDerivationBounds(input.methodology) && forall o | o in input.observations :: o.upstreamId == family
    ensures ReconcileCycle(input).Ok? ==> ReconcileCycle(input).value.status != Verified
  {
    BoundsGuard(input.methodology);
    if ReconcileCycle(input).Ok? && ReconcileCycle(input).value.status == Verified {
      VerifiedNeedsTwoUpstreams(input);
    }
  }

  /** Which caps guard a threshold of at most four places: those more than half a unit of the fourth place below it. */
  lemma {:induction false} CapGuardsExactly(cap: real, n: int)
    ensures Confidence.Round4(cap) < n as real / 10000.0 <==> cap < n as real / 10000.0 - 0.00005
  {
    assert (cap * 10000.0 + 0.5).Floor < n <==> cap * 10000.0 + 0.5 < n as real;
  }

  // ---- Order independence ------------------------------------------------------------------------

  /** The same request with its sources, observations and errors listed in another order. */
  ghost predicate Reordered<V>(a: Input<V>, b: Input<V>) {
    && b == a.(sources := b.sources, observations := b.observations, errors := b.errors)
    && multiset(a.sources) == multiset(b.sources) && multiset(a.observations) == multiset(b.observations)
    && multiset(a.errors) == multiset(b.errors)
  }

  lemma {:induction false} SameMembers<T>(s: seq<T>, t: seq<T>)
    requires multiset(s) == multiset(t)
    ensures |s| == |t| && forall x :: x in s <==> x in t
  {
    assert |multiset(s)| == |s| && |multiset(t)| == |t|;
    forall x ensures x in s <==> x in t { assert x in multiset(s) <==> x in multiset(t); }
  }

  lemma {:induction false} KeysForgetOrder<T>(s: seq<T>, t: seq<T>, key: T -> string)
    requires multiset(s) == multiset(t)
    ensures KeysOf(s, key) == KeysOf(t, key)
  {
    SameMembers(s, t);
    forall i | 0 <= i < |s| ensures key(s[i]) in KeysOf(t, key) { InKeys(t, key, s[i]); }
    forall i | 0 <= i < |t| ensures key(t[i]) in KeysOf(s, key) { InKeys(s, key, t[i]); }
  }

  lemma {:induction false} SourcesForgetOrder(s: seq<Source>, t: seq<Source>)
    requires multiset(s) == multiset(t) && SoundSources(s)
    ensures SoundSources(t)
  {
    SameMembers(s, t);
    DistinctForgetsOrder(s, t, SourceId());
  }

  lemma {:induction false} ObservationsForgetOrder<V>(s: seq<Observation<V>>, t: seq<Observation<V>>, cycleId: string,
                                                      sources: seq<Source>, others: seq<Source>)
    requires multiset(s) == multiset(t) && multiset(sources) == multiset(others) && SoundObservations(s, cycleId, sources)
    ensures SoundObservations(t, cycleId, others)
  {
    SameMembers(s, t);
    SameMembers(sources, others);
    DistinctForgetsOrder(s, t, ObservationId());
    DistinctForgetsOrder(s, t, ObservedSource());
  }

  lemma {:induction false} ErrorsForgetOrder(s: seq<SourceError>, t: seq<SourceError>, sources: seq<Source>, others: seq<Source>)
    requires multiset(s) == multiset(t) && multiset(sources) == multiset(others) && SoundErrors(s, sources)
    ensures SoundErrors(t, others)
  {
    SameMembers(s, t);
    SameMembers(sources, others);
    forall e | e in t ensures SoundError(e, others) { assert SoundError(e, sources); }
  }

  lemma {:induction false} ErrorSetsForgetOrder(s: seq<SourceError>, t: seq<SourceError>)
    requires multiset(s) == multiset(t)
    ensures ErroredSources(s) == ErroredSources(t) && Excluded(s) == Excluded(t)
  {
    SameMembers(s, t);
  }

  lemma {:induction false} EligibleForgetsOrder<V(!new)>(a: Input<V>, b: Input<V>)
    requires Reordered(a, b) && DistinctBy(a.observations, ObservationId())
    ensures Eligible(a) == Eligible(b) && Usable(a) == Usable(b)
  {
    ErrorSetsForgetOrder(a.errors, b.errors);
    var unerrored := UnlessErrored<V>(ErroredSources(a.errors));
    CollectForgetsOrder(a.observations, b.observations, unerrored);
    SelectionDistinct(a.observations, unerrored, ObservationId());
    ByKeyForgetsOrder(Collect(a.observations, unerrored), Collect(b.observations, unerrored), ObservationId());
  }

  lemma {:induction false} RespondedForgetsOrder<V(!new)>(a: Input<V>, b: Input<V>)
    requires Reordered(a, b)
    ensures Responded(a) == Responded(b)
  {
    SameMembers(a.errors, b.errors);
    KeysForgetOrder(a.observations, b.observations, ObservedSource());
  }

  lemma {:induction false} SourceChecksForgetOrder<V(!new)>(a: Input<V>, b: Input<V>)
    requires Reordered(a, b)
    ensures SoundSources(a.sources) <==> SoundSources(b.sources)
    ensures SoundErrors(a.errors, a.sources) <==> SoundErrors(b.errors, b.sources)
    ensures SoundPriors(a.priors, a.sources) <==> SoundPriors(b.priors, b.sources)
  {
    if SoundSources(a.sources) { SourcesForgetOrder(a.sources, b.sources); }
    if SoundSources(b.sources) { SourcesForgetOrder(b.sources, a.sources); }
    if SoundErrors(a.errors, a.sources) { ErrorsForgetOrder(a.errors, b.errors, a.sources, b.sources); }
    if SoundErrors(b.errors, b.sources) { ErrorsForgetOrder(b.errors, a.errors, b.sources, a.sources); }
    KeysForgetOrder(a.sources, b.sources, SourceId());
  }

  lemma {:induction false} ObservationChecksForgetOrder<V(!new)>(a: Input<V>, b: Input<V>)
    requires Reordered(a, b)
    ensures SoundObservations(a.observations, a.cycleId, a.sources) <==> SoundObservations(b.observations, b.cycleId, b.sources)
  {
    if SoundObservations(a.observations, a.cycleId, a.sources) {
      ObservationsForgetOrder(a.observations, b.observations, a.cycleId, a.sources, b.sources);
    }
    if SoundObservations(b.observations, b.cycleId, b.sources) {
      ObservationsForgetOrder(b.observations, a.observations, b.cycleId, b.sources, a.sources);
    }
  }

  /** Which check fails, if any, does not depend on the order either. */
  lemma {:induction false} RejectionForgetsOrder<V(!new)>(a: Input<V>, b: Input<V>)
    requires Reordered(a, b)
    ensures FirstRejection(a) == FirstRejection(b)
  {
    SourceChecksForgetOrder(a, b);
    ObservationChecksForgetOrder(a, b);
    if SoundObservations(a.observations, a.cycleId, a.sources) { EligibleForgetsOrder(a, b); }
  }

  lemma {:induction false} AdvanceForgetsOrder<V(!new)>(a: Input<V>, b: Input<V>, usable: seq<Observation<V>>, reference: V)
    requires Reordered(a, b)
    ensures AdvanceAll(a, usable, reference) == AdvanceAll(b, usable, reference)
  {
    if usable != [] {
      AdvanceForgetsOrder(a, b, usable[..|usable| - 1], reference);
      assert AdvanceSource(a, usable[|usable| - 1], reference) == AdvanceSource(b, usable[|usable| - 1], reference);
    }
  }

  lemma {:induction false} ScoreForgetsOrder<V(!new)>(a: Input<V>, b: Input<V>, usable: seq<Observation<V>>, reference: V)
    requires Reordered(a, b)
    ensures ScoreOf(a, usable, reference) == ScoreOf(b, usable, reference)
  {
    SameMembers(a.sources, b.sources);
    SameMembers(a.errors, b.errors);
  }

  lemma {:induction false} JudgeForgetsOrder<V(!new)>(a: Input<V>, b: Input<V>, usable: seq<Observation<V>>, reference: V)
    requires Reordered(a, b) && DistinctBy(a.errors, ErrorKey())
    ensures Judge(a, usable, reference) == Judge(b, usable, reference)
  {
    ScoreForgetsOrder(a, b, usable, reference);
    AdvanceForgetsOrder(a, b, usable, reference);
    SummaryForgetsOrder(a, b);
  }

  lemma {:induction false} SummaryForgetsOrder<V(!new)>(a: Input<V>, b: Input<V>)
    requires Reordered(a, b) && DistinctBy(a.errors, ErrorKey())
    ensures Responded(a) == Responded(b) && Excluded(a.errors) == Excluded(b.errors) && |a.errors| == |b.errors|
    ensures Sort(a.errors, ByKey(ErrorKey())) == Sort(b.errors, ByKey(ErrorKey())) && |a.sources| == |b.sources|
  {
    RespondedForgetsOrder(a, b);
    ErrorSetsForgetOrder(a.errors, b.errors);
    ByKeyForgetsOrder(a.errors, b.errors, ErrorKey());
    SameMembers(a.sources, b.sources);
    SameMembers(a.errors, b.errors);
  }

  /**
   * Listing the configured sources, the observations and the errors in another order changes nothing in the result:
   * value, status, confidence, contributions, states, events or the failing check. Errors with equal sort keys keep
   * their input order, so their keys must differ.
   */
  lemma {:induction false} ResultForgetsOrder<V(!new)>(a: Input<V>, b: Input<V>)
    requires Reordered(a, b) && DistinctBy(a.errors, ErrorKey())
    ensures ReconcileCycle(a) == ReconcileCycle(b)
  {
    RejectionForgetsOrder(a, b);
    if FirstRejection(a).None? {
      Passed(a);
      EligibleForgetsOrder(a, b);
      SummaryForgetsOrder(a, b);
      var median := WeightedMedian.Compute(Collect(Usable(a), AsReading()), a.profile.cmp);
      if median.Ok? && median.value.Some? { JudgeForgetsOrder(a, b, Usable(a), median.value.value.value); }
    }
  }

  // ---- The new states ----------------------------------------------------------------------------

  /** States stored under the source they belong to, as the next cycle demands of its priors. */
  predicate SoundStates(states: map<string, State>) {
    forall k | k in states :: Identifier(k) && Valid(states[k]) && states[k].sourceId == k
  }

  /** States of these sources may have moved, all others stand. */
  predicate CarriesOn(priors: map<string, State>, moved: set<string>, states: map<string, State>) {
    && SoundStates(states) && states.Keys <= priors.Keys + moved
    && forall k | k in priors && k !in moved :: k in states && states[k] == priors[k]
  }

  lemma {:induction false} ExtendSound<V>(p: Progress<V>, o: Observation<V>, reference: V, a: Advanced)
    requires SoundStates(p.states)
    requires a.state.Some? ==> Identifier(o.source.id) && Valid(a.state.value) && a.state.value.sourceId == o.source.id
    ensures SoundStates(Extend(p, o, reference, a).states)
    ensures Extend(p, o, reference, a).states.Keys <= p.states.Keys + {o.source.id}
    ensures forall k | k in p.states && k != o.source.id ::
              k in Extend(p, o, reference, a).states && Extend(p, o, reference, a).states[k] == p.states[k]
  {}

  lemma {:induction false} StatesSound<V>(input: Input<V>, usable: seq<Observation<V>>, reference: V)
    requires SoundStates(input.priors) && AdvanceAll(input, usable, reference).Ok?
    ensures CarriesOn(input.priors, KeysOf(usable, ObservedSource()), AdvanceAll(input, usable, reference).value.states)
  {
    if usable != [] {
      var n := |usable| - 1;
      assert usable[..n + 1] == usable;
      StatesSound(input, usable[..n], reference);
      ExtendSound(AdvanceAll(input, usable[..n], reference).value, usable[n], reference,
                  AdvanceSource(input, usable[n], reference).value);
      KeysGrow(usable, n, ObservedSource());
    }
  }

  lemma {:induction false} AnswerStates<V(!new)>(input: Input<V>)
    requires Answer(input).Ok? && SoundStates(input.priors)
    ensures CarriesOn(input.priors, KeysOf(Usable(input), ObservedSource()), Answer(input).value.states)
  {
    if Answer(input).value.value.Some? {
      var reference, s, p := ValueShape(input);
      StatesSound(input, Usable(input), reference);
    }
  }

  /**
   * A result can be fed to the next cycle: its states pass the check on priors, and a source that had no usable
   * observation keeps its state.
   */
  lemma {:induction false} StatesFeedNextCycle<V(!new)>(input: Input<V>)
    requires ReconcileCycle(input).Ok?
    ensures SoundPriors(ReconcileCycle(input).value.states, input.sources)
    ensures forall k | k in input.priors && k !in KeysOf(Usable(input), ObservedSource()) ::
              k in ReconcileCycle(input).value.states && ReconcileCycle(input).value.states[k] == input.priors[k]
  {
    Passed(input);
    AnswerStates(input);
    SourceSets(input);
  }
}
