/**
 * Which methodologies keep replicas of one upstream, and panels without an expected source class, from being verified: each
 * condition is exact, since any number of fresh, agreeing sources can be verified otherwise.
 */
module ReconcileLimits {
  import opened Outcomes
  import opened Sorting
  import opened TextOrder
  import opened Totals
  import opened Keys
  import opened Decimals
  import opened Discrepancy
  import opened Reconcile
  import opened ReconcileLaws
  import Agreement
  import Confidence
  import WeightedMedian
  import MedianLaws

  // ---- Replicas ----------------------------------------------------------------------------------

  function Same(a: int, b: int): bool { a == b }
  function SameBand(a: int, b: int): Band { if a == b then WithinTolerance else Discrepancy.AboveInfo }
  function NoSpread(a: int, b: int): real { 0.0 }

  const PROFILE: Profile<int> := Profile(WeightedMedian.Difference, Same, SameBand, NoSpread, 1.0, None)

  function Name(i: nat): string { "s" + Print(i) }

  /** The classes of a panel of sources, the first of them for all further sources, and whether all read one upstream. */
  datatype Panel = Panel(classes: seq<string>, shared: bool)

  predicate SoundPanel(p: Panel) { p.classes != [] && forall c | c in p.classes :: c in SOURCE_CLASSES }

  function ClassAtIndex(p: Panel, i: nat): string
    requires p.classes != []
  {
    if i < |p.classes| then p.classes[i] else p.classes[0]
  }

  function UpstreamAt(p: Panel, i: nat): string { if p.shared then "u" else Name(i) }

  function SourceAt(p: Panel, i: nat): Source
    requires p.classes != []
  {
    Source(Name(i), ClassAtIndex(p, i), "adapter", "url", "public", "passphrase")
  }

  /** A fresh reading of the value 0, under the base weight of its class. */
  function ReplicaAt(m: Methodology, p: Panel, i: nat): Observation<int>
    requires SoundMethodology(m) && SoundPanel(p)
  {
    var weight := m.classWeights[ClassAtIndex(p, i)];
    Observation(Name(i), "c1", true, SourceAt(p, i), 0, 0.0, weight, weight, UpstreamAt(p, i), false, Name(i))
  }

  /** The request for the first `n` sources of a panel, without errors or earlier states. */
  function Replicas(m: Methodology, p: Panel, n: nat): Input<int>
    requires SoundMethodology(m) && SoundPanel(p)
  {
    Input("n1", "c1", 0, seq(n, i requires 0 <= i < n => SourceAt(p, i)), seq(n, i requires 0 <= i < n => ReplicaAt(m, p, i)),
          [], map[], m, PROFILE)
  }

  predicate IsReplica(o: Observation<int>) {
    && o.id != "" && o.value == 0 && o.weight == o.baseWeight > 0.0 && o.upstreamId != ""
    && Identifier(o.source.id) && Identifier(o.discrepancyId)
  }

  lemma {:induction false} SixteenDigits()
    ensures Power(16) == 10000000000000000
  {
    assert Power(5) == 100000;
    assert Power(10) == 10000000000;
    assert Power(15) == 1000000000000000;
  }

  lemma {:induction false} NameIsIdentifier(i: nat)
    requires i <= SAFE_INTEGER_MAX
    ensures Identifier(Name(i))
  {
    PrintReads(i);
    SixteenDigits();
    PrintLength(i, 16);
    forall c | c in Name(i) ensures IdentifierChar(c) { assert c == 's' || c in Print(i); }
  }

  lemma {:induction false} NamesDiffer(i: nat, j: nat)
    requires i != j
    ensures Name(i) != Name(j)
  {
    PrintReads(i);
    PrintReads(j);
    assert Print(i) == Name(i)[1..] && Print(j) == Name(j)[1..];
  }

  lemma {:induction false} ReplicaShape(m: Methodology, p: Panel, i: nat)
    requires SoundMethodology(m) && SoundPanel(p) && i <= SAFE_INTEGER_MAX
    ensures IsReplica(ReplicaAt(m, p, i))
  {
    NameIsIdentifier(i);
    assert ClassAtIndex(p, i) in SOURCE_CLASSES;
  }

  lemma {:induction false} ReplicasChecked(m: Methodology, p: Panel, n: nat)
    requires SoundMethodology(m) && SoundPanel(p) && n <= SAFE_INTEGER_MAX
    ensures Checked(Replicas(m, p, n))
  {
    var input := Replicas(m, p, n);
    forall i, j | 0 <= i < j < n ensures SourceId()(input.sources[i]) != SourceId()(input.sources[j]) { NamesDiffer(i, j); }
    forall i, j | 0 <= i < j < n
      ensures ObservationId<int>()(input.observations[i]) != ObservationId<int>()(input.observations[j])
      ensures ObservedSource<int>()(input.observations[i]) != ObservedSource<int>()(input.observations[j])
    {
      NamesDiffer(i, j);
    }
    forall i | 0 <= i < n ensures Identifier(Name(i)) { NameIsIdentifier(i); }
    forall o | o in input.observations ensures SoundObservation(o, "c1", input.sources) {
      var i :| 0 <= i < n && input.observations[i] == o;
      assert o.source == input.sources[i];
    }
  }

  lemma {:induction false} ReplicasKnown(m: Methodology, p: Panel, n: nat, o: Observation<int>)
    requires SoundMethodology(m) && SoundPanel(p) && n <= SAFE_INTEGER_MAX && o in Replicas(m, p, n).observations
    ensures IsReplica(o)
  {
    var i :| 0 <= i < n && Replicas(m, p, n).observations[i] == o;
    ReplicaShape(m, p, i);
  }

  lemma {:induction false} ReplicasPass(m: Methodology, p: Panel, n: nat)
    requires SoundMethodology(m) && SoundPanel(p) && n <= SAFE_INTEGER_MAX
    ensures FirstRejection(Replicas(m, p, n)).None?
  {
    ReplicasChecked(m, p, n);
    var input := Replicas(m, p, n);
    assert Identifier("n1") && Identifier("c1");
    forall o | o in Eligible(input) ensures o.baseWeight > 0.0 {
      EligibleExactly(input, o);
      ReplicasKnown(m, p, n, o);
    }
  }

  /** All replicas are usable. */
  lemma {:induction false} ReplicasUsable(m: Methodology, p: Panel, n: nat)
    requires SoundMethodology(m) && SoundPanel(p) && n <= SAFE_INTEGER_MAX
    ensures |Usable(Replicas(m, p, n))| == n && forall o | o in Usable(Replicas(m, p, n)) :: IsReplica(o)
    ensures forall i | 0 <= i < n :: ReplicaAt(m, p, i) in Usable(Replicas(m, p, n))
  {
    var input := Replicas(m, p, n);
    ReplicasChecked(m, p, n);
    forall o | o in Usable(input) ensures IsReplica(o) {
      UsableExactly(input, o);
      ReplicasKnown(m, p, n, o);
    }
    forall i | 0 <= i < n ensures ReplicaAt(m, p, i) in Usable(input) { ReplicaUsable(m, p, n, i); }
    SourcesCounted(input);
    SourceSets(input);
    forall i | 0 <= i < n ensures SourceId()(input.sources[i]) in KeysOf(Usable(input), ObservedSource()) {
      InKeys(Usable(input), ObservedSource(), ReplicaAt(m, p, i));
    }
    assert KeysOf(Usable(input), ObservedSource()) == KeysOf(input.sources, SourceId());
  }

  lemma {:induction false} ReplicaUsable(m: Methodology, p: Panel, n: nat, i: nat)
    requires SoundMethodology(m) && SoundPanel(p) && i < n <= SAFE_INTEGER_MAX
    ensures ReplicaAt(m, p, i) in Usable(Replicas(m, p, n))
  {
    var input := Replicas(m, p, n);
    assert input.observations[i] == ReplicaAt(m, p, i);
    ReplicaShape(m, p, i);
    UsableExactly(input, ReplicaAt(m, p, i));
  }

  // ---- Their median, score and discrepancies -----------------------------------------------------

  lemma {:induction false} ReadingsSound(usable: seq<Observation<int>>, readings: seq<WeightedMedian.Reading<int>>)
    requires DistinctBy(usable, ObservationId()) && (forall o | o in usable :: IsReplica(o)) && |readings| == |usable|
    requires forall i | 0 <= i < |usable| ::
               readings[i] == WeightedMedian.Reading(usable[i].id, usable[i].value, usable[i].weight)
    ensures MedianLaws.Sound(readings) && forall r | r in readings :: r.value == 0 && r.weight != 0.0
  {
    forall i, j | 0 <= i < j < |readings| ensures MedianLaws.IdOf<int>()(readings[i]) != MedianLaws.IdOf<int>()(readings[j]) {
      assert ObservationId<int>()(usable[i]) != ObservationId<int>()(usable[j]);
    }
    forall r | r in readings ensures r.id != "" && r.weight > 0.0 && r.value == 0 {
      var i :| 0 <= i < |readings| && readings[i] == r;
      assert usable[i] in usable;
    }
  }

  lemma {:induction false} MedianOfZeros(readings: seq<WeightedMedian.Reading<int>>) returns (median: WeightedMedian.Median<int>)
    requires readings != [] && MedianLaws.Sound(readings) && forall r | r in readings :: r.value == 0 && r.weight != 0.0
    ensures WeightedMedian.Compute(readings, PROFILE.cmp) == Ok(Some(median)) && median.value == 0
  {
    MedianLaws.OutcomeExactly(readings, PROFILE.cmp);
    assert readings[0] in readings;
    median := WeightedMedian.Compute(readings, PROFILE.cmp).value.value;
    MedianLaws.SelectsLowerMedian(readings, PROFILE.cmp, median);
  }

  lemma {:induction false} ReplicasMedian(m: Methodology, p: Panel, n: nat) returns (median: WeightedMedian.Median<int>)
    requires SoundMethodology(m) && SoundPanel(p) && 0 < n <= SAFE_INTEGER_MAX
    ensures WeightedMedian.Compute(Collect(Usable(Replicas(m, p, n)), AsReading()), PROFILE.cmp) == Ok(Some(median))
    ensures median.value == 0
  {
    var usable := Usable(Replicas(m, p, n));
    ReplicasUsable(m, p, n);
    ReplicasChecked(m, p, n);
    UsableDistinct(Replicas(m, p, n), ObservationId());
    CollectMap(usable, AsReading());
    ReadingsSound(usable, Collect(usable, AsReading()));
    median := MedianOfZeros(Collect(usable, AsReading()));
  }

  lemma {:induction false} FullFreshness(usable: seq<Observation<int>>)
    requires forall o | o in usable :: o.weight == o.baseWeight
    ensures Sum(usable, EffectiveWeight()) == Sum(usable, BaseWeight())
  {
    if usable != [] { FullFreshness(usable[..|usable| - 1]); }
  }

  lemma {:induction false} FullSpread(usable: seq<Observation<int>>)
    ensures WidestSpread(PROFILE, usable, 0) == 0.0
  {
    if usable != [] { FullSpread(usable[..|usable| - 1]); }
  }

  /** Everything but diversity is at its best. */
  lemma {:induction false} ReplicasComponents(input: Input<int>, usable: seq<Observation<int>>, diversity: real)
    requires usable != [] && |usable| == |input.sources| && (forall o | o in usable :: IsReplica(o)) && input.profile == PROFILE
    requires diversity == Agreement.Diversity(Classes(usable), Expected(input.methodology))
    ensures Components(input, usable, 0, 1.0) == Confidence.Components(1.0, 1.0, 1.0, diversity, 1.0)
  {
    FullFreshness(usable);
    SumPositive(usable, EffectiveWeight());
    Agreement.RatioUnit(Sum(usable, EffectiveWeight()), Sum(usable, BaseWeight()));
    Agreement.AvailabilityOneExactly(|usable|, |usable|);
    FullSpread(usable);
    assert SpreadScore(0.0, 1.0) == 1.0;
  }

  lemma {:induction false} UpstreamsShared(m: Methodology, p: Panel, n: nat)
    requires SoundMethodology(m) && SoundPanel(p) && 0 < n <= SAFE_INTEGER_MAX
    ensures |Upstreams(Usable(Replicas(m, p, n)))| == 1 <==> n == 1 || p.shared
    ensures "" !in Upstreams(Usable(Replicas(m, p, n)))
  {
    var usable := Usable(Replicas(m, p, n));
    ReplicasUsable(m, p, n);
    forall i | 0 <= i < |usable| ensures Upstream()(usable[i]) != "" { assert usable[i] in usable; }
    if n == 1 || p.shared {
      forall o | o in usable && p.shared ensures o.upstreamId == "u" { ReplicasShare(m, p, n, o); }
      OneUpstream(usable);
    } else {
      NamesDiffer(0, 1);
      TwoUpstreamsCounted(usable, ReplicaAt(m, p, 0), ReplicaAt(m, p, 1));
    }
  }

  lemma {:induction false} OneUpstream(usable: seq<Observation<int>>)
    requires usable != [] && (|usable| == 1 || forall o | o in usable :: o.upstreamId == usable[0].upstreamId)
    ensures |Upstreams(usable)| == 1
  {
    InKeys(usable, Upstream(), usable[0]);
    forall i | 0 <= i < |usable| ensures Upstream()(usable[i]) == usable[0].upstreamId { assert usable[i] in usable; }
    assert Upstreams(usable) == {usable[0].upstreamId};
  }

  lemma {:induction false} TwoUpstreamsCounted(usable: seq<Observation<int>>, a: Observation<int>, b: Observation<int>)
    requires a in usable && b in usable && a.upstreamId != b.upstreamId
    ensures |Upstreams(usable)| >= 2
  {
    InKeys(usable, Upstream(), a);
    InKeys(usable, Upstream(), b);
    TwoElements(Upstreams(usable), a.upstreamId, b.upstreamId);
  }

  lemma {:induction false} TwoElements<T>(s: set<T>, a: T, b: T)
    requires a in s && b in s && a != b
    ensures |s| >= 2
  {
    Agreement.SubsetSmaller({a, b}, s);
  }

  lemma {:induction false} ReplicasShare(m: Methodology, p: Panel, n: nat, o: Observation<int>)
    requires SoundMethodology(m) && SoundPanel(p) && n <= SAFE_INTEGER_MAX && p.shared && o in Usable(Replicas(m, p, n))
    ensures o.upstreamId == "u"
  {
    UsableExactly(Replicas(m, p, n), o);
    var i :| 0 <= i < n && Replicas(m, p, n).observations[i] == o;
  }

  /** Which cap applies to `n` sources, if any. */
  function CapFor(m: Methodology, n: nat, shared: bool): Option<real> {
    if n == 1 then Some(m.singleSourceCap) else if shared then Some(m.sameUpstreamCap) else None
  }

  function Lowered(start: real, cap: Option<real>): real {
    if cap.Some? && cap.value < start then cap.value else start
  }

  lemma {:induction false} OneCap(m: Methodology, n: nat, shared: bool, upstreams: nat, start: real)
    requires n > 0 && (upstreams == 1 <==> n == 1 || shared)
    ensures Confidence.Capped(Caps(m, n, upstreams, 0), start).0 == Lowered(start, CapFor(m, n, shared))
  {
    var caps := Caps(m, n, upstreams, 0);
    Confidence.CappedIsLeast(caps, start);
    assert caps[0] in caps && caps[1] in caps;
  }

  lemma {:induction false} FullEvidence(m: Methodology, diversity: real)
    ensures Confidence.Uncapped(Confidence.Components(1.0, 1.0, 1.0, diversity, 1.0), m.coefficients)
      == Confidence.Share(diversity, Confidence.CoefficientTotal(m.coefficients))
  {
    assert Confidence.Evidence(Confidence.Components(1.0, 1.0, 1.0, diversity, 1.0), m.coefficients)
      == Confidence.CoefficientTotal(m.coefficients);
  }

  /** The score of `n` sources under the given diversity. */
  function ReplicaScore(m: Methodology, n: nat, shared: bool, diversity: real): real {
    var uncapped := Confidence.Share(diversity, Confidence.CoefficientTotal(m.coefficients));
    Confidence.Round4(Lowered(uncapped, CapFor(m, n, shared)))
  }

  lemma {:induction false} CappedScore(m: Methodology, n: nat, shared: bool, upstreams: nat, diversity: real)
    returns (s: Confidence.Score)
    requires SoundMethodology(m) && n > 0 && Confidence.Unit(diversity) && (upstreams == 1 <==> n == 1 || shared)
    ensures Confidence.Compute(Confidence.Components(1.0, 1.0, 1.0, diversity, 1.0), m.coefficients, Caps(m, n, upstreams, 0)) == Ok(s)
    ensures s.score == ReplicaScore(m, n, shared, diversity)
  {
    var c := Confidence.Components(1.0, 1.0, 1.0, diversity, 1.0);
    var start := Confidence.Uncapped(c, m.coefficients);
    CapsSound(m, n, upstreams, 0);
    FullEvidence(m, diversity);
    OneCap(m, n, shared, upstreams, start);
    s := Confidence.Score(Confidence.Round4(Confidence.Capped(Caps(m, n, upstreams, 0), start).0), start, c,
                          Confidence.Capped(Caps(m, n, upstreams, 0), start).1);
  }

  lemma {:induction false} ReplicasAgree(usable: seq<Observation<int>>)
    requires usable != [] && forall o | o in usable :: IsReplica(o)
    ensures var r := Agreement.WeightedAgreement(Collect(usable, AsVote(PROFILE, 0))); r.Some? && r.value.score == 1.0
  {
    AgreementScore(PROFILE, usable, 0);
  }

  lemma {:induction false} ReplicasScore(input: Input<int>, usable: seq<Observation<int>>, shared: bool, diversity: real)
    returns (s: Confidence.Score)
    requires usable != [] && |usable| == |input.sources| && (forall o | o in usable :: IsReplica(o)) && input.profile == PROFILE
    requires SoundMethodology(input.methodology) && input.errors == [] && "" !in Upstreams(usable)
    requires |Upstreams(usable)| == 1 <==> |usable| == 1 || shared
    requires diversity == Agreement.Diversity(Classes(usable), Expected(input.methodology))
    ensures ScoreOf(input, usable, 0) == Ok(s) && s.score == ReplicaScore(input.methodology, |usable|, shared, diversity)
  {
    ExpectedCount(input.methodology);
    Agreement.DiversityOneExactly(Classes(usable), Expected(input.methodology));
    s := CappedScore(input.methodology, |usable|, shared, |Upstreams(usable)|, diversity);
    ReplicasAgree(usable);
    ReplicasComponents(input, usable, diversity);
    forall o | o in usable ensures SoundComparison(PROFILE, o, 0) { assert IsReplica(o); }
    ScoreComputed(input, usable, 0, Confidence.Components(1.0, 1.0, 1.0, diversity, 1.0), s);
  }

  lemma {:induction false} ScoreComputed<V>(input: Input<V>, usable: seq<Observation<V>>, reference: V, c: Confidence.Components,
                                            s: Confidence.Score)
    requires forall o | o in usable :: SoundComparison(input.profile, o, reference)
    requires Agreement.WeightedAgreement(Collect(usable, AsVote(input.profile, reference))).Some?
    requires |usable| <= |input.sources| && input.profile.maximumSpread > 0.0 && "" !in Upstreams(usable)
    requires c == Components(input, usable, reference,
                             Agreement.WeightedAgreement(Collect(usable, AsVote(input.profile, reference))).value.score)
    requires Confidence.Compute(c, input.methodology.coefficients,
                                Caps(input.methodology, |usable|, |Upstreams(usable)|, |input.errors|)) == Ok(s)
    ensures ScoreOf(input, usable, reference) == Ok(s)
  {}

  lemma {:induction false} ReplicasAdvance(input: Input<int>, usable: seq<Observation<int>>)
    requires input.priors == map[] && input.profile == PROFILE && (forall o | o in usable :: IsReplica(o))
    requires Identifier(input.cycleId) && Identifier(input.methodology.version)
    ensures AdvanceAll(input, usable, 0) == Ok(Progress(map[], [], []))
  {
    if usable != [] {
      var last := usable[|usable| - 1];
      ReplicasAdvance(input, usable[..|usable| - 1]);
      assert IsReplica(last);
      assert AdvanceSource(input, last, 0) == Ok(Advanced(None, [], None));
      assert Extend(Progress(map[], [], []), last, 0, Advanced(None, [], None)) == Progress(map[], [], []);
    }
  }

  // ---- When replicas are verified ----------------------------------------------------------------

  predicate Named(m: Methodology) { Identifier(m.version) && !LongNames(m) }

  lemma {:induction false} ReplicasClose(m: Methodology, p: Panel, n: nat, s: Confidence.Score)
    requires SoundMethodology(m) && SoundPanel(p) && Named(m) && 0 < n <= SAFE_INTEGER_MAX && m.minimumVerified <= n
    requires ScoreOf(Replicas(m, p, n), Usable(Replicas(m, p, n)), 0) == Ok(s) && s.score >= m.threshold
    ensures var input := Replicas(m, p, n);
      Judge(input, Usable(input), 0).Ok? && Judge(input, Usable(input), 0).value.status == Verified
  {
    var input := Replicas(m, p, n);
    ReplicasUsable(m, p, n);
    ReplicasChecked(m, p, n);
    assert Identifier("c1");
    ReplicasAdvance(input, Usable(input));
    StatusExactly(input, Usable(input), 0, s);
    ValueCloses(input, 0, s, Progress(map[], [], []));
  }

  lemma {:induction false} MedianAnswers<V>(input: Input<V>, usable: seq<Observation<V>>, m: WeightedMedian.Median<V>)
    requires FirstRejection(input).None? && Usable(input) == usable
    requires WeightedMedian.Compute(Collect(usable, AsReading()), input.profile.cmp) == Ok(Some(m))
    ensures ReconcileCycle(input) == Judge(input, usable, m.value)
  {}

  /** Enough sources are verified when their score reaches the threshold. */
  lemma {:induction false} ReplicasVerified(m: Methodology, p: Panel, n: nat, diversity: real)
    requires SoundMethodology(m) && SoundPanel(p) && Named(m) && 0 < n <= SAFE_INTEGER_MAX && m.minimumVerified <= n
    requires diversity == Agreement.Diversity(Classes(Usable(Replicas(m, p, n))), Expected(m))
    requires ReplicaScore(m, n, p.shared, diversity) >= m.threshold
    ensures IsVerified(Replicas(m, p, n))
  {
    var input := Replicas(m, p, n);
    ReplicasUsable(m, p, n);
    ReplicasPass(m, p, n);
    UpstreamsShared(m, p, n);
    var s := ReplicasScore(input, Usable(input), p.shared, diversity);
    ReplicasClose(m, p, n, s);
    var median := ReplicasMedian(m, p, n);
    MedianAnswers(input, Usable(input), median);
  }

  predicate IsVerified<V(==)>(input: Input<V>) { ReconcileCycle(input).Ok? && ReconcileCycle(input).value.status == Verified }

  // ---- The exact guard against one upstream ------------------------------------------------------

  /** Replicas of one upstream that represent all expected classes. */
  function Copies(m: Methodology): Panel { Panel(m.expectedClasses, true) }

  lemma {:induction false} FewClasses(m: Methodology)
    requires SoundMethodology(m)
    ensures |m.expectedClasses| <= 5 && |Expected(m)| == |m.expectedClasses|
  {
    var same := (c: string) => c;
    DistinctCount(m.expectedClasses, same);
    ExpectedKeys(m, same);
    KnownClasses(m);
    SubsetCount(Expected(m), {"canonical_ledger", "archive", "dex", "anchor_self_reported", "third_party_oracle"});
  }

  lemma {:induction false} KnownClasses(m: Methodology)
    requires forall c | c in m.expectedClasses :: c in SOURCE_CLASSES
    ensures Expected(m) <= {"canonical_ledger", "archive", "dex", "anchor_self_reported", "third_party_oracle"}
  {}

  lemma {:induction false} ExpectedKeys(m: Methodology, same: string -> string)
    requires forall c :: same(c) == c
    ensures KeysOf(m.expectedClasses, same) == Expected(m)
  {
    forall c | c in Expected(m) ensures c in KeysOf(m.expectedClasses, same) { InKeys(m.expectedClasses, same, c); }
  }

  /** The classes of the panel, once it has a source for each. */
  lemma {:induction false} PanelClasses(m: Methodology, p: Panel, n: nat)
    requires SoundMethodology(m) && SoundPanel(p) && |p.classes| <= n <= SAFE_INTEGER_MAX
    ensures forall c :: c in Classes(Usable(Replicas(m, p, n))) <==> c in p.classes
  {
    var usable := Usable(Replicas(m, p, n));
    ReplicasUsable(m, p, n);
    forall c | c in p.classes ensures c in Classes(usable) {
      var i :| 0 <= i < |p.classes| && p.classes[i] == c;
      InKeys(usable, SourceClass(), ReplicaAt(m, p, i));
    }
    forall c | c in Classes(usable) ensures c in p.classes {
      var i :| 0 <= i < |usable| && SourceClass()(usable[i]) == c;
      PanelClass(m, p, n, usable[i]);
    }
  }

  lemma {:induction false} PanelClass(m: Methodology, p: Panel, n: nat, o: Observation<int>)
    requires SoundMethodology(m) && SoundPanel(p) && o in Usable(Replicas(m, p, n))
    ensures o in Replicas(m, p, n).observations && o.source.sourceClass in p.classes
  {
    UsableExactly(Replicas(m, p, n), o);
    var i :| 0 <= i < n && Replicas(m, p, n).observations[i] == o;
  }

  lemma {:induction false} AllClasses(m: Methodology, n: nat)
    requires SoundMethodology(m) && |m.expectedClasses| <= n <= SAFE_INTEGER_MAX
    ensures Agreement.Diversity(Classes(Usable(Replicas(m, Copies(m), n))), Expected(m)) == 1.0
  {
    PanelClasses(m, Copies(m), n);
    ExpectedCount(m);
    Agreement.DiversityOneExactly(Classes(Usable(Replicas(m, Copies(m), n))), Expected(m));
  }

  lemma {:induction false} OneClass(m: Methodology)
    requires SoundMethodology(m)
    ensures Agreement.Diversity(Classes(Usable(Replicas(m, Copies(m), 1))), Expected(m)) == Agreement.Ratio(1.0, |Expected(m)| as real)
  {
    var p := Copies(m);
    var usable, c := Usable(Replicas(m, p, 1)), m.expectedClasses[0];
    ReplicasUsable(m, p, 1);
    assert ReplicaAt(m, p, 0) in usable && usable == [ReplicaAt(m, p, 0)];
    InKeys(usable, SourceClass(), ReplicaAt(m, p, 0));
    assert Classes(usable) == {c} && c in Expected(m);
    assert {c} * Expected(m) == {c};
  }

  lemma {:induction false} NearlyOne(x: real)
    requires x >= 1.0 - Confidence.TOLERANCE
    ensures Confidence.Round4(x) >= 1.0
  {
    assert (x * 10000.0 + 0.5).Floor >= 10000;
  }

  lemma {:induction false} ManyScore(m: Methodology, n: nat)
    requires SoundMethodology(m) && n > 1 && Confidence.Round4(m.sameUpstreamCap) >= m.threshold
    ensures ReplicaScore(m, n, true, 1.0) >= m.threshold
  {
    var total := Confidence.CoefficientTotal(m.coefficients);
    assert Confidence.Share(1.0, total) == total;
    NearlyOne(total);
  }

  lemma {:induction false} ManyVerified(m: Methodology, n: nat)
    requires SoundMethodology(m) && Named(m) && Confidence.Round4(m.sameUpstreamCap) >= m.threshold
    requires 5 < n <= SAFE_INTEGER_MAX && m.minimumVerified <= n
    ensures IsVerified(Replicas(m, Copies(m), n))
  {
    FewClasses(m);
    AllClasses(m, n);
    ManyScore(m, n);
    ReplicasVerified(m, Copies(m), n, 1.0);
  }

  lemma {:induction false} SingleVerified(m: Methodology)
    requires SoundMethodology(m) && Named(m) && m.minimumVerified == 1 && BestSingle(m) >= m.threshold
    ensures IsVerified(Replicas(m, Copies(m), 1))
  {
    OneClass(m);
    ReplicasVerified(m, Copies(m), 1, Agreement.Ratio(1.0, |Expected(m)| as real));
  }

  function Enough(m: Methodology): nat { if m.minimumVerified < 6 then 6 else m.minimumVerified }

  /** What an unguarded methodology verifies: replicas of one upstream, or a single source. */
  lemma {:induction false} UnguardedVerifies(m: Methodology) returns (n: nat)
    requires SoundMethodology(m) && Named(m) && !Guarded(m)
    ensures 0 < n <= SAFE_INTEGER_MAX && IsVerified(Replicas(m, Copies(m), n))
  {
    if Confidence.Round4(m.sameUpstreamCap) >= m.threshold {
      n := Enough(m);
      ManyVerified(m, n);
    } else {
      n := 1;
      SingleVerified(m);
    }
  }

  ghost predicate TwoUpstreamsIn<V(!new)>(observations: seq<Observation<V>>) {
    exists a, b :: a in observations && b in observations && a.upstreamId != b.upstreamId
  }

  lemma {:induction false} ReplicasShareUpstream(m: Methodology, n: nat)
    requires SoundMethodology(m) && n <= SAFE_INTEGER_MAX
    ensures !TwoUpstreamsIn(Replicas(m, Copies(m), n).observations)
  {}

  /**
   * For every sound methodology with usable names: verified results always rest on two different upstreams exactly when
   * the rounded same-upstream cap lies below the threshold and, where one source is enough, the best score of one does.
   */
  lemma {:induction false} GuardedExactly(m: Methodology)
    requires SoundMethodology(m) && Named(m)
    ensures (forall input: Input<int> | input.methodology == m && IsVerified(input) :: TwoUpstreamsIn(input.observations))
      <==> Guarded(m)
  {
    if Guarded(m) {
      forall input: Input<int> | input.methodology == m && IsVerified(input) ensures TwoUpstreamsIn(input.observations) {
        VerifiedNeedsTwoUpstreams(input);
      }
    } else {
      var n := UnguardedVerifies(m);
      ReplicasShareUpstream(m, n);
      assert Replicas(m, Copies(m), n).methodology == m;
    }
  }

  // ---- The exact guard against missing classes ---------------------------------------------------

  ghost predicate AllClassesIn<V(!new)>(m: Methodology, observations: seq<Observation<V>>) {
    forall c | c in m.expectedClasses :: exists o :: o in observations && o.source.sourceClass == c
  }

  /** Independent sources of every expected class but the first, or of an unexpected class if only one is expected. */
  function Partial(m: Methodology): Panel
    requires m.expectedClasses != []
  {
    Panel(if |m.expectedClasses| > 1 then m.expectedClasses[1..]
          else if m.expectedClasses[0] == "dex" then ["archive"] else ["dex"], false)
  }

  lemma {:induction false} PartialLacksOne(m: Methodology)
    requires SoundMethodology(m)
    ensures SoundPanel(Partial(m)) && |Partial(m).classes| <= 5 && m.expectedClasses[0] !in Partial(m).classes
    ensures forall c | c in Expected(m) && c != m.expectedClasses[0] :: c in Partial(m).classes
  {
    var first, rest := m.expectedClasses[0], Partial(m).classes;
    FewClasses(m);
    assert SOURCE_CLASSES[1] == "archive" && SOURCE_CLASSES[2] == "dex";
    if |m.expectedClasses| > 1 {
      forall c | c in rest ensures c in SOURCE_CLASSES && c != first {
        var i :| 0 <= i < |rest| && rest[i] == c;
        assert m.expectedClasses[i + 1] == c;
      }
    }
    forall c | c in Expected(m) && c != first ensures c in rest {
      var i :| 0 <= i < |m.expectedClasses| && m.expectedClasses[i] == c;
      assert rest[i - 1] == c;
    }
  }

  lemma {:induction false} OneMissing(classes: set<string>, expected: set<string>, first: string)
    requires first in expected && first !in classes && expected - {first} <= classes
    ensures Agreement.Diversity(classes, expected) == WithoutOne(|expected|)
  {
    assert classes * expected == expected - {first};
    assert |expected - {first}| == |expected| - 1;
    var k := |expected| as real;
    assert (k - 1.0) / k == 1.0 - 1.0 / k;
  }

  /** They lose exactly one part in the number of expected classes. */
  lemma {:induction false} PartialDiversity(m: Methodology, n: nat)
    requires SoundMethodology(m) && 5 < n <= SAFE_INTEGER_MAX && SoundPanel(Partial(m))
    ensures Agreement.Diversity(Classes(Usable(Replicas(m, Partial(m), n))), Expected(m)) == WithoutOne(|Expected(m)|)
  {
    PartialLacksOne(m);
    PanelClasses(m, Partial(m), n);
    OneMissing(Classes(Usable(Replicas(m, Partial(m), n))), Expected(m), m.expectedClasses[0]);
  }

  lemma {:induction false} RoundsTo(x: real, y: real, part: nat)
    requires y == x * 10000.0 + 0.5 && part as real <= y < part as real + 1.0
    ensures Confidence.Round4(x) == part as real / 10000.0
  {
    assert y.Floor == part;
  }

  /** A total within the tolerance of 1 rounds what is left without one of up to five classes to the same four places. */
  lemma {:induction false} ToleranceRoundsAway(classes: nat, total: real)
    requires 1 <= classes <= 5 && 1.0 - Confidence.TOLERANCE <= total <= 1.0 + Confidence.TOLERANCE
    ensures Confidence.Round4(Confidence.Share(WithoutOne(classes), total)) == BestWithoutOne(classes)
  {
    var left := WithoutOne(classes);
    var places := [0, 5000, 6667, 7500, 8000];
    var part := places[classes - 1];
    RoundsTo(Confidence.Share(left, total), left * total * 10000.0 + 0.5, part);
    RoundsTo((1.0 + Confidence.TOLERANCE) * left, (1.0 + Confidence.TOLERANCE) * left * 10000.0 + 0.5, part);
  }

  lemma {:induction false} PartialScore(m: Methodology, n: nat)
    requires SoundMethodology(m) && n > 1
    ensures ReplicaScore(m, n, false, WithoutOne(|Expected(m)|)) == BestWithoutOne(|Expected(m)|)
  {
    FewClasses(m);
    ToleranceRoundsAway(|Expected(m)|, Confidence.CoefficientTotal(m.coefficients));
  }

  /** What is verified when the threshold does not exceed the best score without one class. */
  lemma {:induction false} PartialVerified(m: Methodology)
    requires SoundMethodology(m) && Named(m) && SoundPanel(Partial(m)) && BestWithoutOne(|Expected(m)|) >= m.threshold
    ensures IsVerified(Replicas(m, Partial(m), Enough(m)))
  {
    PartialDiversity(m, Enough(m));
    PartialScore(m, Enough(m));
    ReplicasVerified(m, Partial(m), Enough(m), WithoutOne(|Expected(m)|));
  }

  lemma {:induction false} PartialIsPartial(m: Methodology, n: nat)
    requires SoundMethodology(m) && SoundPanel(Partial(m))
    ensures !AllClassesIn(m, Replicas(m, Partial(m), n).observations)
  {
    var first := m.expectedClasses[0];
    PartialLacksOne(m);
    forall o | o in Replicas(m, Partial(m), n).observations ensures o.source.sourceClass != first {
      var i :| 0 <= i < n && Replicas(m, Partial(m), n).observations[i] == o;
      assert ClassAtIndex(Partial(m), i) in Partial(m).classes;
    }
    assert first in m.expectedClasses;
  }

  /**
   * For every sound methodology with usable names: verified results always represent every expected source class exactly
   * when the threshold lies above the best rounded score that is left without one of them.
   */
  lemma {:induction false} ClassesForcedExactly(m: Methodology)
    requires SoundMethodology(m) && Named(m)
    ensures (forall input: Input<int> | input.methodology == m && IsVerified(input) :: AllClassesIn(m, input.observations))
      <==> BestWithoutOne(|Expected(m)|) < m.threshold
  {
    if BestWithoutOne(|Expected(m)|) < m.threshold {
      forall input: Input<int> | input.methodology == m && IsVerified(input) ensures AllClassesIn(m, input.observations) {
        forall c | c in m.expectedClasses ensures exists o :: o in input.observations && o.source.sourceClass == c {
          VerifiedNeedsAllClasses(input, c);
        }
      }
    } else {
      PartialLacksOne(m);
      PartialVerified(m);
      PartialIsPartial(m, Enough(m));
      assert Replicas(m, Partial(m), Enough(m)).methodology == m;
    }
  }

  // ---- Two methodologies that pass all checks ----------------------------------------------------

  const QUARTERS := Confidence.Coefficients(0.25, 0.25, 0.25, 0.25)

  function MethodologyOf(expectedClasses: seq<string>, threshold: real, sameUpstreamCap: real): Methodology {
    Methodology("v1", "f1", 300.0, expectedClasses,
                map["canonical_ledger" := 1.0, "archive" := 1.0, "dex" := 1.0, "anchor_self_reported" := 1.0, "third_party_oracle" := 1.0],
                2, threshold, QUARTERS, 0.6, sameUpstreamCap, 0.85)
  }

  lemma {:induction false} MethodologyIsSound(expectedClasses: seq<string>, threshold: real, sameUpstreamCap: real)
    requires expectedClasses != [] && (forall c | c in expectedClasses :: c in SOURCE_CLASSES)
    requires forall i, j | 0 <= i < j < |expectedClasses| :: expectedClasses[i] != expectedClasses[j]
    requires Confidence.Unit(threshold) && Confidence.Unit(sameUpstreamCap)
    ensures var m := MethodologyOf(expectedClasses, threshold, sameUpstreamCap); SoundMethodology(m) && Named(m)
  {
    assert "v1"[0] in "v1" && "f1"[0] in "f1";
    assert !Blank("v1") && !Blank("f1");
    assert Confidence.CoefficientTotal(QUARTERS) == 1.0;
    assert Confidence.SumsToOne(QUARTERS);
  }

  /** A same-upstream cap just below the threshold. */
  const METHODOLOGY: Methodology := MethodologyOf(["dex"], 0.9, 0.89996)

  /**
   * Both caps below the threshold are no guard: under a cap of 0.89996 and a threshold of 0.9 replicas of one upstream are
   * verified, since the capped score is rounded up to the threshold.
   */
  lemma {:induction false} RoundingLiftsTheCap() returns (n: nat)
    ensures METHODOLOGY.sameUpstreamCap < METHODOLOGY.threshold && METHODOLOGY.singleSourceCap < METHODOLOGY.threshold
    ensures SoundMethodology(METHODOLOGY) && !TwoUpstreamsIn(Replicas(METHODOLOGY, Copies(METHODOLOGY), n).observations)
    ensures IsVerified(Replicas(METHODOLOGY, Copies(METHODOLOGY), n))
  {
    assert SOURCE_CLASSES[2] == "dex";
    MethodologyIsSound(["dex"], 0.9, 0.89996);
    CapGuardsExactly(METHODOLOGY.sameUpstreamCap, 9000);
    n := UnguardedVerifies(METHODOLOGY);
    ReplicasShareUpstream(METHODOLOGY, n);
  }

  /** All five classes expected, both caps below the threshold. */
  const FIVE: Methodology := MethodologyOf(SOURCE_CLASSES, 0.8, 0.6)

  lemma {:induction false} FiveExpected()
    ensures SoundMethodology(FIVE) && Named(FIVE) && |Expected(FIVE)| == 5
  {
    MethodologyIsSound(SOURCE_CLASSES, 0.8, 0.6);
    FewClasses(FIVE);
  }

  /** With five expected classes and a threshold of 0.8, independent sources of four classes are verified. */
  lemma {:induction false} FourClassesVerified()
    ensures SoundMethodology(FIVE) && SoundPanel(Partial(FIVE)) && Guarded(FIVE)
    ensures IsVerified(Replicas(FIVE, Partial(FIVE), 6)) && !AllClassesIn(FIVE, Replicas(FIVE, Partial(FIVE), 6).observations)
  {
    FiveExpected();
    PartialLacksOne(FIVE);
    CapGuardsExactly(FIVE.sameUpstreamCap, 8000);
    ToleranceRoundsAway(5, 1.0);
    assert Confidence.Share(WithoutOne(5), 1.0) == 8000 as real / 10000.0;
    Confidence.Round4Fixed(8000);
    PartialVerified(FIVE);
    PartialIsPartial(FIVE, 6);
  }
}
