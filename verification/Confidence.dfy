/** The confidence score: weighted evidence, multiplied by diversity, lowered by caps, rounded to four places. */
module Confidence {
  import opened Outcomes

  datatype Components = Components(agreement: real, freshness: real, availability: real, diversity: real, spread: real)

  datatype Coefficients = Coefficients(agreement: real, freshness: real, availability: real, spread: real)

  datatype Cap = Cap(id: string, maximum: real, applies: bool)

  datatype Score = Score(score: real, uncapped: real, components: Components, capsApplied: seq<string>)

  datatype Fault = BadComponent | BadCoefficient | BadTotal | BadCap

  /** Ten times the machine epsilon: how far from 1 the coefficients may sum. */
  const TOLERANCE: real := 10.0 / 4503599627370496.0

  predicate Unit(x: real) { 0.0 <= x <= 1.0 }

  predicate UnitComponents(c: Components) {
    Unit(c.agreement) && Unit(c.freshness) && Unit(c.availability) && Unit(c.diversity) && Unit(c.spread)
  }

  predicate UnitCoefficients(c: Coefficients) {
    Unit(c.agreement) && Unit(c.freshness) && Unit(c.availability) && Unit(c.spread)
  }

  function CoefficientTotal(c: Coefficients): real { c.agreement + c.freshness + c.availability + c.spread }

  predicate SumsToOne(c: Coefficients) { -TOLERANCE <= CoefficientTotal(c) - 1.0 <= TOLERANCE }

  lemma {:induction false} UnitProduct(a: real, b: real)
    ensures Unit(a) && b >= 0.0 ==> 0.0 <= a * b <= b
  {
    assert Unit(a) && b >= 0.0 ==> (1.0 - a) * b >= 0.0;
  }

  /** A share of a non-negative value is at most that value. */
  function Share(part: real, value: real): (r: real)
    ensures Unit(part) && value >= 0.0 ==> 0.0 <= r <= value
  {
    UnitProduct(part, value);
    part * value
  }

  function Evidence(c: Components, w: Coefficients): real {
    Share(c.agreement, w.agreement) + Share(c.freshness, w.freshness) + Share(c.availability, w.availability)
    + Share(c.spread, w.spread)
  }

  function Uncapped(c: Components, w: Coefficients): real { Share(c.diversity, Evidence(c, w)) }

  /** Four decimal places; a tie goes to the larger value. */
  function Round4(x: real): real { (x * 10000.0 + 0.5).Floor as real / 10000.0 }

  predicate SoundCap(cap: Cap) { cap.id != "" && Unit(cap.maximum) }

  /** Applies caps from left to right and collects those that lowered the score. */
  function Capped(caps: seq<Cap>, start: real): (real, seq<string>) {
    if caps == [] then (start, [])
    else
      var before, cap := Capped(caps[..|caps| - 1], start), caps[|caps| - 1];
      if cap.applies && before.0 > cap.maximum then (cap.maximum, before.1 + [cap.id]) else before
  }

  function Compute(components: Components, coefficients: Coefficients, caps: seq<Cap>): Result<Score, Fault> {
    if !UnitComponents(components) then Err(BadComponent)
    else if !UnitCoefficients(coefficients) then Err(BadCoefficient)
    else if !SumsToOne(coefficients) then Err(BadTotal)
    else if exists cap :: cap in caps && !SoundCap(cap) then Err(BadCap)
    else
      var uncapped := Uncapped(components, coefficients);
      Ok(Score(Round4(Capped(caps, uncapped).0), uncapped, components, Capped(caps, uncapped).1))
  }

  method ComputeConfidence(components: Components, coefficients: Coefficients, caps: seq<Cap>) returns (r: Result<Score, Fault>)
    ensures r == Compute(components, coefficients, caps)
  {
    if !UnitComponents(components) { return Err(BadComponent); }
    if !UnitCoefficients(coefficients) { return Err(BadCoefficient); }
    if !SumsToOne(coefficients) { return Err(BadTotal); }
    var uncappedScore := Uncapped(components, coefficients);
    var score := uncappedScore;
    var capsApplied: seq<string> := [];
    for i := 0 to |caps|
      invariant score == Capped(caps[..i], uncappedScore).0
      invariant capsApplied == Capped(caps[..i], uncappedScore).1
      invariant forall cap | cap in caps[..i] :: SoundCap(cap)
    {
      assert caps[..i + 1][..i] == caps[..i];
      var cap := caps[i];
      if !SoundCap(cap) {
        assert cap in caps;
        return Err(BadCap);
      }
      assert caps[..i + 1] == caps[..i] + [cap];
      if cap.applies && score > cap.maximum {
        score := cap.maximum;
        capsApplied := capsApplied + [cap.id];
      }
    }
    assert caps[..|caps|] == caps;
    r := Ok(Score(Round4(score), uncappedScore, components, capsApplied));
  }

  // ---- Properties --------------------------------------------------------------------------------

  /** The order of the caps does not matter to the score: it is the least of the start and the caps that apply. */
  lemma {:induction false} CappedIsLeast(caps: seq<Cap>, start: real)
    ensures var score := Capped(caps, start).0;
      && score <= start
      && (forall cap | cap in caps && cap.applies :: score <= cap.maximum)
      && (score == start || exists cap :: cap in caps && cap.applies && cap.maximum == score)
      && (Capped(caps, start).1 == [] <==> score == start)
  {
    if caps != [] {
      CappedIsLeast(caps[..|caps| - 1], start);
      assert caps == caps[..|caps| - 1] + [caps[|caps| - 1]];
    }
  }

  /**
   * A score is computed exactly from components and coefficients in the unit interval, coefficients that sum to one within
   * ten machine epsilons, and named caps in the unit interval; what fails first is reported.
   */
  lemma {:induction false} ComputesExactly(c: Components, w: Coefficients, caps: seq<Cap>)
    ensures var r := Compute(c, w, caps);
      var components := 0.0 <= c.agreement <= 1.0 && 0.0 <= c.freshness <= 1.0 && 0.0 <= c.availability <= 1.0
                        && 0.0 <= c.diversity <= 1.0 && 0.0 <= c.spread <= 1.0;
      var coefficients := 0.0 <= w.agreement <= 1.0 && 0.0 <= w.freshness <= 1.0 && 0.0 <= w.availability <= 1.0
                          && 0.0 <= w.spread <= 1.0;
      var total := w.agreement + w.freshness + w.availability + w.spread;
      var sums := 1.0 - 10.0 / 4503599627370496.0 <= total <= 1.0 + 10.0 / 4503599627370496.0;
      && (r.Ok? <==> components && coefficients && sums && forall cap | cap in caps :: cap.id != "" && 0.0 <= cap.maximum <= 1.0)
      && (r == Err(BadComponent) <==> !components)
      && (r == Err(BadCoefficient) <==> components && !coefficients)
      && (r == Err(BadTotal) <==> components && coefficients && !sums)
  {
    assert (exists cap :: cap in caps && !SoundCap(cap)) <==> !forall cap | cap in caps :: SoundCap(cap);
  }

  /**
   * Each component counts by its own coefficient and by diversity: raising one component alone raises the uncapped score by
   * diversity times its coefficient times the rise, and without any evidence the score is zero.
   */
  lemma {:induction false} EachCoefficientWeighs(c: Components, w: Coefficients, x: real)
    ensures Uncapped(c.(agreement := x), w) - Uncapped(c, w) == c.diversity * (w.agreement * (x - c.agreement))
    ensures Uncapped(c.(freshness := x), w) - Uncapped(c, w) == c.diversity * (w.freshness * (x - c.freshness))
    ensures Uncapped(c.(availability := x), w) - Uncapped(c, w) == c.diversity * (w.availability * (x - c.availability))
    ensures Uncapped(c.(spread := x), w) - Uncapped(c, w) == c.diversity * (w.spread * (x - c.spread))
    ensures Uncapped(c.(agreement := 0.0, freshness := 0.0, availability := 0.0, spread := 0.0), w) == 0.0
  {
    AgreementWeighs(c, w, x);
    FreshnessWeighs(c, w, x);
    AvailabilityWeighs(c, w, x);
    SpreadWeighs(c, w, x);
  }

  lemma {:induction false} AgreementWeighs(c: Components, w: Coefficients, x: real)
    ensures Uncapped(c.(agreement := x), w) - Uncapped(c, w) == c.diversity * (w.agreement * (x - c.agreement))
  {
    RiseWeighs(c.agreement, x, w.agreement);
    RiseDiversified(c.diversity, Evidence(c, w), Evidence(c.(agreement := x), w), w.agreement * (x - c.agreement));
  }

  lemma {:induction false} FreshnessWeighs(c: Components, w: Coefficients, x: real)
    ensures Uncapped(c.(freshness := x), w) - Uncapped(c, w) == c.diversity * (w.freshness * (x - c.freshness))
  {
    RiseWeighs(c.freshness, x, w.freshness);
    RiseDiversified(c.diversity, Evidence(c, w), Evidence(c.(freshness := x), w), w.freshness * (x - c.freshness));
  }

  lemma {:induction false} AvailabilityWeighs(c: Components, w: Coefficients, x: real)
    ensures Uncapped(c.(availability := x), w) - Uncapped(c, w) == c.diversity * (w.availability * (x - c.availability))
  {
    RiseWeighs(c.availability, x, w.availability);
    RiseDiversified(c.diversity, Evidence(c, w), Evidence(c.(availability := x), w), w.availability * (x - c.availability));
  }

  lemma {:induction false} SpreadWeighs(c: Components, w: Coefficients, x: real)
    ensures Uncapped(c.(spread := x), w) - Uncapped(c, w) == c.diversity * (w.spread * (x - c.spread))
  {
    RiseWeighs(c.spread, x, w.spread);
    RiseDiversified(c.diversity, Evidence(c, w), Evidence(c.(spread := x), w), w.spread * (x - c.spread));
  }

  lemma {:induction false} RiseWeighs(from: real, to: real, weight: real)
    ensures Share(to, weight) - Share(from, weight) == weight * (to - from)
  {
    assert weight * (to - from) == weight * to - weight * from;
  }

  lemma {:induction false} RiseDiversified(diversity: real, from: real, to: real, rise: real)
    requires to - from == rise
    ensures Share(diversity, to) - Share(diversity, from) == diversity * rise
  {
    assert diversity * (to - from) == diversity * to - diversity * from;
  }

  /** The whole score falls with diversity in proportion. */
  lemma {:induction false} DiversityScales(c: Components, w: Coefficients, x: real)
    ensures c.diversity * Uncapped(c.(diversity := x), w) == x * Uncapped(c, w)
  {
    var evidence := Evidence(c, w);
    assert Evidence(c.(diversity := x), w) == evidence;
    assert c.diversity * (x * evidence) == x * (c.diversity * evidence);
  }

  lemma {:induction false} Round4Monotone(x: real, y: real)
    requires x <= y
    ensures Round4(x) <= Round4(y)
  {
    assert (x * 10000.0 + 0.5).Floor <= (y * 10000.0 + 0.5).Floor;
  }

  /** Rounding leaves four-place values alone. */
  lemma {:induction false} Round4Fixed(n: int)
    ensures Round4(n as real / 10000.0) == n as real / 10000.0
  {
    assert n as real / 10000.0 * 10000.0 == n as real;
    assert (n as real + 0.5).Floor == n;
  }

  lemma {:induction false} ShareMonotone(part: real, value: real, larger: real)
    requires Unit(part) && 0.0 <= value <= larger
    ensures Share(part, value) <= Share(part, larger)
  {
    UnitProduct(part, larger - value);
    assert part * (larger - value) == part * larger - part * value;
  }

  lemma {:induction false} EvidenceBounds(c: Components, w: Coefficients)
    requires UnitComponents(c) && UnitCoefficients(w)
    ensures 0.0 <= Evidence(c, w) <= CoefficientTotal(w)
  {}

  lemma {:induction false} UncappedBounds(c: Components, w: Coefficients, u: real)
    requires UnitComponents(c) && UnitCoefficients(w) && SumsToOne(w) && u == Uncapped(c, w)
    ensures 0.0 <= u <= (1.0 + TOLERANCE) * c.diversity <= 1.0 + TOLERANCE
  {
    EvidenceBounds(c, w);
    ShareMonotone(c.diversity, Evidence(c, w), 1.0 + TOLERANCE);
  }

  lemma {:induction false} UncappedShare(c: Components, w: Coefficients)
    requires UnitComponents(c) && UnitCoefficients(w)
    ensures Uncapped(c, w) <= Share(c.diversity, CoefficientTotal(w))
  {
    EvidenceBounds(c, w);
    ShareMonotone(c.diversity, Evidence(c, w), CoefficientTotal(w));
  }

  /** What a score says: it is at most every cap that applies and at most the diversity, each rounded. */
  lemma {:induction false} ScoreBounds(components: Components, coefficients: Coefficients, caps: seq<Cap>)
    requires Compute(components, coefficients, caps).Ok?
    ensures var s := Compute(components, coefficients, caps).value;
      && Unit(s.score)
      && (forall cap | cap in caps && cap.applies :: s.score <= Round4(cap.maximum))
      && s.score <= Round4((1.0 + TOLERANCE) * components.diversity)
      && s.score <= Round4(Share(components.diversity, CoefficientTotal(coefficients)))
  {
    var s := Compute(components, coefficients, caps).value;
    CappedIsLeast(caps, s.uncapped);
    var least := Capped(caps, s.uncapped).0;
    forall cap | cap in caps && cap.applies ensures s.score <= Round4(cap.maximum) { Round4Monotone(least, cap.maximum); }
    UncappedBounds(components, coefficients, s.uncapped);
    UncappedShare(components, coefficients);
    Round4Monotone(least, (1.0 + TOLERANCE) * components.diversity);
    Round4Monotone(least, Share(components.diversity, CoefficientTotal(coefficients)));
  }
}
