/** What a reconciliation reports: its value, its components, and for each source what became of it. */
module ReconcileResults {
  import opened Outcomes
  import opened Sorting
  import opened TextOrder
  import opened Totals
  import opened Keys
  import opened Discrepancy
  import opened Reconcile
  import opened ReconcileLaws
  import Agreement
  import Confidence
  import WeightedMedian
  import MedianLaws

  // ---- The value ---------------------------------------------------------------------------------

  function WeightBelow<V>(cmp: (V, V) -> int, v: V): Observation<V> -> real {
    (o: Observation<V>) => if cmp(o.value, v) < 0 then o.weight else 0.0
  }

  function WeightAbove<V>(cmp: (V, V) -> int, v: V): Observation<V> -> real {
    (o: Observation<V>) => if cmp(o.value, v) > 0 then o.weight else 0.0
  }

  /** Sums over readings are sums over the observations they were made from. */
  lemma {:induction false} ReadingSums<V>(usable: seq<Observation<V>>, f: Observation<V> -> real, g: WeightedMedian.Reading<V> -> real)
    requires forall o: Observation<V> :: g(WeightedMedian.Reading(o.id, o.value, o.weight)) == f(o)
    ensures Sum(Collect(usable, AsReading()), g) == Sum(usable, f)
  {
    if usable != [] {
      ReadingSums(usable[..|usable| - 1], f, g);
      var readings := Collect(usable, AsReading());
      assert readings[..|readings| - 1] == Collect(usable[..|usable| - 1], AsReading());
    }
  }

  /** The value of a usable observation that splits the usable weight: less than half below it, at most half above. */
  ghost predicate MedianValue<V(!new)>(input: Input<V>, v: V) {
    var usable, cmp := Usable(input), input.profile.cmp;
    && (exists o :: o in usable && o.value == v)
    && 2.0 * Sum(usable, WeightBelow(cmp, v)) < Sum(usable, EffectiveWeight())
    && 2.0 * Sum(usable, WeightAbove(cmp, v)) <= Sum(usable, EffectiveWeight())
  }

  lemma {:induction false} MedianSplits<V(!new)>(input: Input<V>, m: WeightedMedian.Median<V>)
    requires WeightedMedian.Comparator(input.profile.cmp)
    requires WeightedMedian.Compute(Collect(Usable(input), AsReading()), input.profile.cmp) == Ok(Some(m))
    ensures MedianValue(input, m.value)
  {
    var usable, cmp := Usable(input), input.profile.cmp;
    var readings := Collect(usable, AsReading());
    MedianLaws.SelectsLowerMedian(readings, cmp, m);
    ReadingSums(usable, WeightBelow(cmp, m.value), WeightedMedian.WeightBelow(cmp, m.value));
    ReadingSums(usable, WeightAbove(cmp, m.value), WeightedMedian.WeightAbove(cmp, m.value));
    ReadingSums(usable, EffectiveWeight(), WeightedMedian.Weight());
    ReadingIsUsable(usable, m.value);
  }

  lemma {:induction false} ReadingIsUsable<V(!new)>(usable: seq<Observation<V>>, v: V)
    requires exists r :: r in Collect(usable, AsReading()) && r.value == v
    ensures exists o :: o in usable && o.value == v
  {
    var r :| r in Collect(usable, AsReading()) && r.value == v;
    CollectedExactly(usable, AsReading(), r);
    var i :| 0 <= i < |usable| && r in AsReading<V>()(usable[i]);
    assert usable[i] in usable && usable[i].value == v;
  }

  /**
   * A result has a value exactly when some observation is usable; the value is the weighted median of the usable ones, and
   * without one the result is unavailable and all states stay.
   */
  lemma {:induction false} ValueIsMedian<V(!new)>(input: Input<V>)
    requires ReconcileCycle(input).Ok? && WeightedMedian.Comparator(input.profile.cmp)
    ensures var r := ReconcileCycle(input).value;
      && (r.value.Some? <==> Usable(input) != []) && (r.status == Unavailable <==> r.value.None?)
      && (r.value.Some? ==> MedianValue(input, r.value.value))
      && (r.value.None? ==> r.states == input.priors && r.events == [] && r.findings == [] && r.contributions == [])
  {
    NoMedianExactly(input);
    var median := WeightedMedian.Compute(Collect(Usable(input), AsReading()), input.profile.cmp).value;
    MedianIsValue(input, median);
    if median.Some? { MedianSplits(input, median.value); }
  }

  lemma {:induction false} MedianIsValue<V(!new)>(input: Input<V>, median: Option<WeightedMedian.Median<V>>)
    requires ReconcileCycle(input).Ok?
    requires WeightedMedian.Compute(Collect(Usable(input), AsReading()), input.profile.cmp) == Ok(median)
    ensures var r := ReconcileCycle(input).value;
      if median.Some? then r.value == Some(median.value.value) && r.status != Unavailable
      else r.value.None? && r.status == Unavailable && r.states == input.priors && r.events == [] && r.findings == []
           && r.contributions == []
  {
    var r := Answer(input);
    if median.Some? {
      assert r == Judge(input, Usable(input), median.value.value);
      JudgedValue(input, Usable(input), median.value.value);
    } else {
      assert r == Closed(NoValue(input), input.methodology);
    }
  }

  lemma {:induction false} JudgedValue<V(!new)>(input: Input<V>, usable: seq<Observation<V>>, reference: V)
    requires Judge(input, usable, reference).Ok?
    ensures var r := Judge(input, usable, reference).value; r.value == Some(reference) && r.status != Unavailable
  {
    var s := ScoreOf(input, usable, reference).value;
    var p := AdvanceAll(input, usable, reference).value;
    assert Judge(input, usable, reference) == Closed(WithValue(input, usable, reference, s, p), input.methodology);
  }

  lemma {:induction false} NoMedianExactly<V(!new)>(input: Input<V>)
    requires ReconcileCycle(input).Ok?
    ensures var m := WeightedMedian.Compute(Collect(Usable(input), AsReading()), input.profile.cmp);
      m.Ok? && (m.value.None? <==> Usable(input) == [])
  {
    var readings := Collect(Usable(input), AsReading());
    MedianLaws.OutcomeExactly(readings, input.profile.cmp);
    CollectMap(Usable(input), AsReading());
    if Usable(input) != [] {
      var o := Usable(input)[0];
      UsableExactly(input, o);
      assert readings[0] == WeightedMedian.Reading(o.id, o.value, o.weight) && readings[0] in readings;
    }
  }

  // ---- The components ----------------------------------------------------------------------------

  lemma {:induction false} FullFreshness<V>(usable: seq<Observation<V>>)
    requires forall o | o in usable :: 0.0 < o.weight <= o.baseWeight
    ensures Sum(usable, EffectiveWeight()) <= Sum(usable, BaseWeight())
    ensures Sum(usable, EffectiveWeight()) == Sum(usable, BaseWeight()) <==> forall o | o in usable :: o.weight == o.baseWeight
  {
    if usable != [] {
      var prefix, last := usable[..|usable| - 1], usable[|usable| - 1];
      FullFreshness(prefix);
      assert usable == prefix + [last];
    }
  }

  lemma {:induction false} NoSpreadExactly<V>(profile: Profile<V>, usable: seq<Observation<V>>, reference: V)
    ensures WidestSpread(profile, usable, reference) >= 0.0
    ensures WidestSpread(profile, usable, reference) == 0.0 <==> forall o | o in usable :: profile.spread(o.value, reference) <= 0.0
  {
    if usable != [] {
      var prefix, last := usable[..|usable| - 1], usable[|usable| - 1];
      NoSpreadExactly(profile, prefix, reference);
      assert usable == prefix + [last];
    }
  }

  /** Each component is at its best exactly when nothing it measures is missing. */
  ghost predicate BestExactly<V(!new)>(input: Input<V>, usable: seq<Observation<V>>, reference: V, c: Confidence.Components) {
    && (c.agreement == 1.0 <==> forall o | o in usable :: input.profile.agrees(o.value, reference))
    && (c.freshness == 1.0 <==> forall o | o in usable :: o.weight == o.baseWeight)
    && (c.availability == 1.0 <==> |usable| == |input.sources|)
    && (c.diversity == 1.0 <==> Expected(input.methodology) <= Classes(usable))
    && (c.spread == 1.0 <==> forall o | o in usable :: input.profile.spread(o.value, reference) <= 0.0)
  }

  lemma {:induction false} FreshnessOneExactly<V>(usable: seq<Observation<V>>)
    requires usable != [] && forall o | o in usable :: 0.0 < o.weight <= o.baseWeight
    ensures Agreement.Ratio(Sum(usable, EffectiveWeight()), Sum(usable, BaseWeight())) == 1.0
      <==> forall o | o in usable :: o.weight == o.baseWeight
  {
    FullFreshness(usable);
    SumPositive(usable, EffectiveWeight());
    Agreement.RatioUnit(Sum(usable, EffectiveWeight()), Sum(usable, BaseWeight()));
  }

  lemma {:induction false} SpreadOneExactly(widest: real, maximum: real)
    requires widest >= 0.0 && maximum > 0.0
    ensures SpreadScore(widest, maximum) == 1.0 <==> widest == 0.0
  {
    assert widest / maximum >= 0.0 && (widest / maximum == 0.0 <==> widest == 0.0);
  }

  lemma {:induction false} ComponentsBest<V(!new)>(input: Input<V>, usable: seq<Observation<V>>, reference: V, s: Confidence.Score)
    requires usable != [] && (forall o | o in usable :: 0.0 < o.weight <= o.baseWeight)
    requires SoundMethodology(input.methodology) && ScoreOf(input, usable, reference) == Ok(s)
    ensures BestExactly(input, usable, reference, s.components)
  {
    ScoreComponents(input, usable, reference, s);
    AgreementScore(input.profile, usable, reference);
    FreshnessOneExactly(usable);
    Agreement.AvailabilityOneExactly(|usable|, |input.sources|);
    ExpectedCount(input.methodology);
    Agreement.DiversityOneExactly(Classes(usable), Expected(input.methodology));
    NoSpreadExactly(input.profile, usable, reference);
    SpreadOneExactly(WidestSpread(input.profile, usable, reference), input.profile.maximumSpread);
  }

  /**
   * The reported components tell their parts apart: agreement is 1 exactly when every usable observation agrees with the
   * value, freshness when none has decayed, availability when every configured source is usable, diversity when every
   * expected class is represented, spread when no distance from the value is positive.
   */
  lemma {:induction false} ComponentsMean<V(!new)>(input: Input<V>)
    requires ReconcileCycle(input).Ok? && ReconcileCycle(input).value.value.Some? && Decays(input.observations)
    ensures BestExactly(input, Usable(input), ReconcileCycle(input).value.value.value, ReconcileCycle(input).value.components)
  {
    Passed(input);
    UsableWeights(input);
    var reference, s, p := ValueShape(input);
    ComponentsBest(input, Usable(input), reference, s);
  }

  // ---- Contributions -----------------------------------------------------------------------------

  predicate Lists<V>(c: Contribution, o: Observation<V>, agrees: bool) {
    c.observationId == o.id && c.sourceId == o.source.id && c.sourceClass == o.source.sourceClass && c.age == o.age
    && c.weight == o.weight && c.agrees == agrees
  }

  lemma {:induction false} ContributionsOf<V>(profile: Profile<V>, usable: seq<Observation<V>>, reference: V)
    ensures var cs := Collect(usable, AsContribution(profile, reference));
      |cs| == |usable| && forall i | 0 <= i < |usable| :: Lists(cs[i], usable[i], profile.agrees(usable[i].value, reference))
  {
    CollectMap(usable, AsContribution(profile, reference));
  }

  lemma {:induction false} ContributionsShape<V(!new)>(input: Input<V>)
    requires Answer(input).Ok? && Answer(input).value.value.Some?
    ensures Answer(input).value.contributions == Collect(Usable(input), AsContribution(input.profile, Answer(input).value.value.value))
  {
    var reference, s, p := ValueShape(input);
  }

  /** The result lists one contribution for each usable observation, in their order, and says whether it agrees. */
  lemma {:induction false} ContributionsListed<V(!new)>(input: Input<V>)
    requires ReconcileCycle(input).Ok? && ReconcileCycle(input).value.value.Some?
    ensures var r := ReconcileCycle(input).value; var usable := Usable(input);
      && |r.contributions| == |usable|
      && forall i | 0 <= i < |usable| :: Lists(r.contributions[i], usable[i], input.profile.agrees(usable[i].value, r.value.value))
  {
    ContributionsShape(input);
    ContributionsOf(input.profile, Usable(input), ReconcileCycle(input).value.value.value);
  }

  // ---- States, events and findings ---------------------------------------------------------------

  /** What the discrepancy machine answers for the source of an observation, given its deviation from the value. */
  function Answered<V>(input: Input<V>, o: Observation<V>, reference: V): Result<Advanced, Fault> {
    var prior := if o.source.id in input.priors then Some(input.priors[o.source.id]) else None;
    Advance(prior, if prior.Some? && prior.value.lifecycle == Open then prior.value.discrepancyId else o.discrepancyId,
            o.source.id, o.namedParty, input.methodology.version,
            Cycle(input.cycleId, input.at, input.profile.band(o.value, reference)))
  }

  /** The progress holds what the machine answered for the source. */
  ghost predicate Holds<V(!new)>(p: Progress<V>, o: Observation<V>, reference: V, a: Advanced) {
    && (forall e | e in a.events :: e in p.events)
    && (a.state.Some? ==>
          && o.source.id in p.states && p.states[o.source.id] == a.state.value
          && exists f :: f in p.findings && Reports(f, o, reference, a.state.value))
  }

  ghost predicate Reports<V(!new)>(f: Finding<V>, o: Observation<V>, reference: V, s: State) {
    && f.id == s.discrepancyId && f.sourceId == o.source.id && f.severity == s.severity && f.lifecycle == s.lifecycle
    && f.publication == s.publication && f.cycles == s.cycles && f.observed == o.value && f.reference == reference
    && f.firstObservedAt == s.firstObservedAt && f.lastObservedAt == s.lastObservedAt
  }

  lemma {:induction false} ExtendHolds<V(!new)>(p: Progress<V>, o: Observation<V>, reference: V, a: Advanced)
    ensures Holds(Extend(p, o, reference, a), o, reference, a)
  {
    if a.state.Some? {
      var f := FindingOf(a.state.value, o.source.id, o.value, reference);
      assert Extend(p, o, reference, a).findings[|p.findings|] == f;
      assert Reports(f, o, reference, a.state.value);
    }
  }

  lemma {:induction false} ExtendKeepsHolding<V(!new)>(p: Progress<V>, o: Observation<V>, b: Advanced, last: Observation<V>,
                                                       reference: V, a: Advanced)
    requires Holds(p, o, reference, b) && o.source.id != last.source.id
    ensures Holds(Extend(p, last, reference, a), o, reference, b)
  {
    if b.state.Some? {
      var f :| f in p.findings && Reports(f, o, reference, b.state.value);
      assert f in Extend(p, last, reference, a).findings;
    }
  }

  lemma {:induction false} ProgressHolds<V(!new)>(input: Input<V>, usable: seq<Observation<V>>, reference: V, i: nat)
    requires DistinctBy(usable, ObservedSource()) && AdvanceAll(input, usable, reference).Ok? && i < |usable|
    ensures Answered(input, usable[i], reference).Ok? && Answered(input, usable[i], reference).value.ignored.None?
    ensures Holds(AdvanceAll(input, usable, reference).value, usable[i], reference, Answered(input, usable[i], reference).value)
  {
    var n := |usable| - 1;
    var p := AdvanceAll(input, usable[..n], reference).value;
    var a := AdvanceSource(input, usable[n], reference).value;
    if i == n {
      ExtendHolds(p, usable[n], reference, a);
    } else {
      ProgressHolds(input, usable[..n], reference, i);
      assert ObservedSource<V>()(usable[i]) != ObservedSource<V>()(usable[n]);
      ExtendKeepsHolding(p, usable[i], Answered(input, usable[i], reference).value, usable[n], reference, a);
    }
  }

  /** Every event and finding of the progress is some usable source's. */
  ghost predicate Explained<V(!new)>(input: Input<V>, p: Progress<V>, usable: seq<Observation<V>>, reference: V) {
    && (forall e | e in p.events ::
          exists i :: 0 <= i < |usable| && Answered(input, usable[i], reference).Ok?
                      && e in Answered(input, usable[i], reference).value.events)
    && (forall f | f in p.findings ::
          exists i :: 0 <= i < |usable| && Answered(input, usable[i], reference).Ok?
                      && Answered(input, usable[i], reference).value.state.Some?
                      && Reports(f, usable[i], reference, Answered(input, usable[i], reference).value.state.value))
  }

  lemma {:induction false} ProgressExplained<V(!new)>(input: Input<V>, usable: seq<Observation<V>>, reference: V)
    requires AdvanceAll(input, usable, reference).Ok?
    ensures Explained(input, AdvanceAll(input, usable, reference).value, usable, reference)
  {
    if usable != [] {
      var n := |usable| - 1;
      ProgressExplained(input, usable[..n], reference);
      OneMoreExplained(input, AdvanceAll(input, usable[..n], reference).value, usable, reference,
                       AdvanceSource(input, usable[n], reference).value);
    }
  }

  lemma {:induction false} OneMoreExplained<V(!new)>(input: Input<V>, p: Progress<V>, usable: seq<Observation<V>>, reference: V, a: Advanced)
    requires usable != [] && Explained(input, p, usable[..|usable| - 1], reference)
    requires Answered(input, usable[|usable| - 1], reference) == Ok(a)
    ensures Explained(input, Extend(p, usable[|usable| - 1], reference, a), usable, reference)
  {
    var n := |usable| - 1;
    var next := Extend(p, usable[n], reference, a);
    forall e | e in next.events
      ensures exists i :: 0 <= i < |usable| && Answered(input, usable[i], reference).Ok?
                          && e in Answered(input, usable[i], reference).value.events
    {
      if e in p.events {
        var i :| 0 <= i < n && Answered(input, usable[..n][i], reference).Ok? && e in Answered(input, usable[..n][i], reference).value.events;
        assert usable[..n][i] == usable[i];
      } else {
        assert e in Answered(input, usable[n], reference).value.events;
      }
    }
    forall f | f in next.findings
      ensures exists i :: 0 <= i < |usable| && Answered(input, usable[i], reference).Ok?
                          && Answered(input, usable[i], reference).value.state.Some?
                          && Reports(f, usable[i], reference, Answered(input, usable[i], reference).value.state.value)
    {
      if f in p.findings {
        var i :| 0 <= i < n && Answered(input, usable[..n][i], reference).Ok?
                 && Answered(input, usable[..n][i], reference).value.state.Some?
                 && Reports(f, usable[..n][i], reference, Answered(input, usable[..n][i], reference).value.state.value);
        assert usable[..n][i] == usable[i];
      } else {
        assert Reports(f, usable[n], reference, a.state.value);
      }
    }
  }

  /** What the result reports of one usable source. */
  ghost predicate SourceReported<V(!new)>(input: Input<V>, r: Reconcile.Outcome<V>, o: Observation<V>) {
    r.value.Some?
    && Answered(input, o, r.value.value).Ok? && Answered(input, o, r.value.value).value.ignored.None?
    && Holds(Progress(r.states, r.events, r.findings), o, r.value.value, Answered(input, o, r.value.value).value)
  }

  lemma {:induction false} SortedReported<V(!new)>(p: Progress<V>, o: Observation<V>, reference: V, a: Advanced)
    requires Holds(p, o, reference, a)
    ensures Holds(Progress(p.states, Sort(p.events, ByKey(EventKey())), Sort(p.findings, ByKey(FindingSource()))), o, reference, a)
  {
    SortedByKey(p.events, EventKey());
    SortedByKey(p.findings, FindingSource());
  }

  /**
   * For each usable observation the result carries what the discrepancy machine answers for its source: the new state under
   * the source, all its events, and a finding; and it carries no other event or finding.
   */
  lemma {:induction false} SourcesReported<V(!new)>(input: Input<V>)
    requires ReconcileCycle(input).Ok? && ReconcileCycle(input).value.value.Some?
    ensures var r := ReconcileCycle(input).value;
      && (forall o | o in Usable(input) :: SourceReported(input, r, o))
      && Explained(input, Progress(r.states, r.events, r.findings), Usable(input), r.value.value)
  {
    Passed(input);
    var usable := Usable(input);
    var reference, s, p := ValueShape(input);
    UsableDistinct(input, ObservedSource());
    var r := ReconcileCycle(input).value;
    forall o | o in usable ensures SourceReported(input, r, o) {
      var i :| 0 <= i < |usable| && usable[i] == o;
      ProgressHolds(input, usable, reference, i);
      SortedReported(p, o, reference, Answered(input, o, reference).value);
    }
    ProgressExplained(input, usable, reference);
    SortedByKey(p.events, EventKey());
    SortedByKey(p.findings, FindingSource());
  }

  // ---- What is accepted --------------------------------------------------------------------------

  predicate KnownClass(c: string) {
    c == "canonical_ledger" || c == "archive" || c == "dex" || c == "anchor_self_reported" || c == "third_party_oracle"
  }

  lemma {:induction false} KnownClassExactly(c: string)
    ensures KnownClass(c) <==> c in SOURCE_CLASSES
  {
    assert SOURCE_CLASSES[0] == "canonical_ledger" && SOURCE_CLASSES[1] == "archive" && SOURCE_CLASSES[2] == "dex";
    assert SOURCE_CLASSES[3] == "anchor_self_reported" && SOURCE_CLASSES[4] == "third_party_oracle";
  }

  /** Some character is left when the text is trimmed. */
  ghost predicate Trimmable(s: string) { exists c :: c in s && !White(c) }

  /**
   * A methodology is accepted exactly with named versions, a positive half-life, a positive safe number of sources, threshold
   * and caps in the unit interval, different known classes to expect, a weight in (0, 1] for each known class, and
   * coefficients in the unit interval that sum to one within ten machine epsilons.
   */
  lemma {:induction false} MethodologyExactly(m: Methodology)
    ensures SoundMethodology(m) <==>
              && Trimmable(m.version) && Trimmable(m.formulaVersion) && m.halfLife > 0.0
              && 0 < m.minimumVerified < 9007199254740992
              && 0.0 <= m.threshold <= 1.0 && 0.0 <= m.singleSourceCap <= 1.0
              && 0.0 <= m.sameUpstreamCap <= 1.0 && 0.0 <= m.sourceErrorCap <= 1.0
              && |m.expectedClasses| > 0 && (forall c | c in m.expectedClasses :: KnownClass(c))
              && (forall i, j | 0 <= i < |m.expectedClasses| && 0 <= j < |m.expectedClasses| && m.expectedClasses[i] == m.expectedClasses[j] ::
                    i == j)
              && (forall c | KnownClass(c) :: c in m.classWeights && 0.0 < m.classWeights[c] <= 1.0)
              && Confidence.UnitCoefficients(m.coefficients) && Confidence.SumsToOne(m.coefficients)
  {
    forall c: string ensures KnownClass(c) <==> c in SOURCE_CLASSES { KnownClassExactly(c); }
  }

  /** A profile is accepted exactly with a positive greatest spread and, if it has one, a positive greatest age. */
  lemma {:induction false} ProfileExactly<V>(p: Profile<V>)
    ensures SoundProfile(p) <==> 0.0 < p.maximumSpread && (p.maximumAge == None || 0.0 < p.maximumAge.value)
  {}

  // ---- What was accepted -------------------------------------------------------------------------

  /**
   * A request that is answered names itself soundly, under a sound methodology, and every observation is of this cycle,
   * fits the metric and subject, comes from a configured source exactly as configured, and is the only one of its source.
   */
  lemma {:induction false} AnsweredIsSound<V(!new)>(input: Input<V>)
    requires ReconcileCycle(input).Ok?
    ensures Identifier(input.snapshotId) && Identifier(input.cycleId) && SoundMethodology(input.methodology)
    ensures forall s | s in input.sources :: Identifier(s.id)
    ensures forall s, t | s in input.sources && t in input.sources && s.id == t.id :: s == t
    ensures forall o | o in input.observations ::
              o.cycleId == input.cycleId && o.fits && Identifier(o.id) && o.source in input.sources
    ensures forall o, q | o in input.observations && q in input.observations && (o.id == q.id || o.source.id == q.source.id) :: o == q
  {
    Passed(input);
    SourcesAreSound(input.sources);
    ObservationsAreSound(input.observations, input.cycleId, input.sources);
  }

  /** Every error names a configured source, and every earlier state belongs to one. */
  lemma {:induction false} AnsweredRefersToSources<V(!new)>(input: Input<V>)
    requires ReconcileCycle(input).Ok?
    ensures forall e | e in input.errors && e.sourceId.Some? ::
              exists s :: s in input.sources && s.id == e.sourceId.value && (e.sourceUrl.Some? ==> e.sourceUrl.value == s.url)
    ensures forall k | k in input.priors :: Valid(input.priors[k]) && input.priors[k].sourceId == k && exists s :: s in input.sources && s.id == k
  {
    PassedReferences(input);
    ErrorsAreSound(input.errors, input.sources);
    PriorsAreSound(input.priors, input.sources);
  }

  lemma {:induction false} PassedReferences<V(!new)>(input: Input<V>)
    requires ReconcileCycle(input).Ok?
    ensures SoundErrors(input.errors, input.sources) && SoundPriors(input.priors, input.sources)
  {}

  lemma {:induction false} ErrorsAreSound(errors: seq<SourceError>, sources: seq<Source>)
    requires SoundErrors(errors, sources)
    ensures forall e | e in errors && e.sourceId.Some? ::
              exists s :: s in sources && s.id == e.sourceId.value && (e.sourceUrl.Some? ==> e.sourceUrl.value == s.url)
  {
    forall e | e in errors && e.sourceId.Some?
      ensures exists s :: s in sources && s.id == e.sourceId.value && (e.sourceUrl.Some? ==> e.sourceUrl.value == s.url)
    {
      assert SoundError(e, sources);
    }
  }

  lemma {:induction false} PriorsAreSound(priors: map<string, State>, sources: seq<Source>)
    requires SoundPriors(priors, sources)
    ensures forall k | k in priors :: Valid(priors[k]) && priors[k].sourceId == k && exists s :: s in sources && s.id == k
  {
    forall k | k in priors ensures Valid(priors[k]) && priors[k].sourceId == k && exists s :: s in sources && s.id == k {
      PriorHasSource(priors, sources, k);
    }
  }

  lemma {:induction false} SourcesAreSound(sources: seq<Source>)
    requires SoundSources(sources)
    ensures forall s | s in sources :: Identifier(s.id)
    ensures forall s, t | s in sources && t in sources && s.id == t.id :: s == t
  {
    forall s, t | s in sources && t in sources && s.id == t.id ensures s == t { SameKeySameElement(sources, SourceId(), s, t); }
  }

  lemma {:induction false} ObservationsAreSound<V(!new)>(observations: seq<Observation<V>>, cycleId: string, sources: seq<Source>)
    requires SoundObservations(observations, cycleId, sources)
    ensures forall o | o in observations :: o.cycleId == cycleId && o.fits && Identifier(o.id) && o.source in sources
    ensures forall o, q | o in observations && q in observations && (o.id == q.id || o.source.id == q.source.id) :: o == q
  {
    forall o | o in observations ensures o.cycleId == cycleId && o.fits && Identifier(o.id) && o.source in sources {
      assert SoundObservation(o, cycleId, sources);
    }
    forall o, q | o in observations && q in observations && (o.id == q.id || o.source.id == q.source.id) ensures o == q {
      if o.id == q.id { SameKeySameElement(observations, ObservationId(), o, q); }
      else { SameKeySameElement(observations, ObservedSource(), o, q); }
    }
  }

  lemma {:induction false} PriorHasSource(priors: map<string, State>, sources: seq<Source>, k: string)
    requires SoundPriors(priors, sources) && k in priors
    ensures Valid(priors[k]) && priors[k].sourceId == k
    ensures exists s :: s in sources && s.id == k
  {
    var i :| 0 <= i < |sources| && SourceId()(sources[i]) == k;
    assert sources[i] in sources;
  }

  /** The source answered, with an observation or with an error that is one. */
  ghost predicate DidRespond<V(!new)>(input: Input<V>, id: string) {
    || (exists o :: o in input.observations && o.source.id == id)
    || (exists e :: e in input.errors && e.sourceId == Some(id)
                    && e.code !in {"request_failed", "request_aborted", "invalid_configuration", "excluded_source"})
  }

  ghost predicate WasExcluded(errors: seq<SourceError>, id: string) {
    exists e :: e in errors && e.sourceId == Some(id) && (e.code == "network_mismatch" || e.code == "excluded_source")
  }

  lemma {:induction false} RespondedExactly<V(!new)>(input: Input<V>, id: string)
    ensures id in Responded(input) <==> DidRespond(input, id)
  {
    if id in KeysOf(input.observations, ObservedSource()) {
      var i :| 0 <= i < |input.observations| && ObservedSource()(input.observations[i]) == id;
      assert input.observations[i] in input.observations;
    }
    if o :| o in input.observations && o.source.id == id { InKeys(input.observations, ObservedSource(), o); }
  }

  /** The counts of the result are those of the sources that were configured, answered, were usable or excluded. */
  lemma {:induction false} CountsMean<V(!new)>(input: Input<V>)
    requires ReconcileCycle(input).Ok?
    ensures var r := ReconcileCycle(input).value;
      && r.configured == |input.sources| && r.usable == |Usable(input)|
      && r.responded == |Responded(input)| && r.excluded == |Excluded(input.errors)|
    ensures forall id :: id in Responded(input) <==> DidRespond(input, id)
    ensures forall id :: id in Excluded(input.errors) <==> WasExcluded(input.errors, id)
  {
    if ReconcileCycle(input).value.value.Some? { CountsOfValue(input); } else { CountsWithoutValue(input); }
    forall id ensures id in Responded(input) <==> DidRespond(input, id) { RespondedExactly(input, id); }
    forall id ensures id in Excluded(input.errors) <==> WasExcluded(input.errors, id) { ExcludedExactly(input.errors, id); }
  }

  lemma {:induction false} ExcludedExactly(errors: seq<SourceError>, id: string)
    ensures id in Excluded(errors) <==> WasExcluded(errors, id)
  {}

  lemma {:induction false} CountsWithoutValue<V(!new)>(input: Input<V>)
    requires ReconcileCycle(input).Ok? && ReconcileCycle(input).value.value.None?
    ensures var r := ReconcileCycle(input).value;
      && r.configured == |input.sources| && r.usable == |Usable(input)|
      && r.responded == |Responded(input)| && r.excluded == |Excluded(input.errors)|
  {
    NoMedianExactly(input);
    var median := WeightedMedian.Compute(Collect(Usable(input), AsReading()), input.profile.cmp).value;
    MedianIsValue(input, median);
  }

  lemma {:induction false} CountsOfValue<V(!new)>(input: Input<V>)
    requires Answer(input).Ok? && Answer(input).value.value.Some?
    ensures var r := Answer(input).value;
      && r.configured == |input.sources| && r.usable == |Usable(input)|
      && r.responded == |Responded(input)| && r.excluded == |Excluded(input.errors)|
  {
    var reference, s, p := ValueShape(input);
  }
}
