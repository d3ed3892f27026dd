/** Weighted consensus, availability and source-class diversity. */
module Agreement {
  import opened Outcomes
  import opened Totals

  datatype Vote = Vote(weight: real, agrees: bool)

  datatype Consensus = Consensus(score: real, agreeingWeight: real, totalWeight: real)

  function VoteWeight(): Vote -> real { (v: Vote) => v.weight }

  function AgreeingWeight(): Vote -> real { (v: Vote) => if v.agrees then v.weight else 0.0 }

  function Ratio(part: real, whole: real): real { if whole == 0.0 then 0.0 else part / whole }

  /** None stands for the error when a weight is negative. */
  function WeightedAgreement(votes: seq<Vote>): Option<Consensus> {
    if exists v :: v in votes && v.weight < 0.0 then None
    else
      var agreeing, total := Sum(votes, AgreeingWeight()), Sum(votes, VoteWeight());
      Some(Consensus(Ratio(agreeing, total), agreeing, total))
  }

  method ComputeWeightedAgreement(votes: seq<Vote>) returns (r: Option<Consensus>)
    ensures r == WeightedAgreement(votes)
  {
    var agreeingWeight, totalWeight := 0.0, 0.0;
    for i := 0 to |votes|
      invariant agreeingWeight == Sum(votes[..i], AgreeingWeight())
      invariant totalWeight == Sum(votes[..i], VoteWeight())
      invariant forall v | v in votes[..i] :: v.weight >= 0.0
    {
      assert votes[..i + 1][..i] == votes[..i];
      if votes[i].weight < 0.0 {
        assert votes[i] in votes;
        return None;
      }
      assert votes[..i + 1] == votes[..i] + [votes[i]];
      totalWeight := totalWeight + votes[i].weight;
      if votes[i].agrees { agreeingWeight := agreeingWeight + votes[i].weight; }
    }
    assert votes[..|votes|] == votes;
    r := Some(Consensus(Ratio(agreeingWeight, totalWeight), agreeingWeight, totalWeight));
  }

  lemma {:induction false} RatioUnit(part: real, whole: real)
    requires 0.0 <= part <= whole
    ensures 0.0 <= Ratio(part, whole) <= 1.0
    ensures whole > 0.0 ==> (Ratio(part, whole) == 1.0 <==> part == whole)
  {
    if whole > 0.0 {
      assert part / whole <= whole / whole == 1.0;
      assert part == (part / whole) * whole;
    }
  }

  lemma {:induction false} FullAgreement(votes: seq<Vote>)
    requires forall v | v in votes :: v.weight > 0.0
    ensures Sum(votes, AgreeingWeight()) <= Sum(votes, VoteWeight())
    ensures Sum(votes, AgreeingWeight()) == Sum(votes, VoteWeight()) <==> forall v | v in votes :: v.agrees
  {
    if votes != [] {
      var prefix, last := votes[..|votes| - 1], votes[|votes| - 1];
      FullAgreement(prefix);
      assert votes == prefix + [last];
    }
  }

  /** Among positive weights the score reaches 1 exactly when every vote agrees. */
  lemma {:induction false} ScoreOneExactly(votes: seq<Vote>)
    requires votes != [] && forall v | v in votes :: v.weight > 0.0
    ensures WeightedAgreement(votes).Some?
    ensures var c := WeightedAgreement(votes).value;
      0.0 <= c.score <= 1.0 && (c.score == 1.0 <==> forall v | v in votes :: v.agrees)
  {
    FullAgreement(votes);
    SumPositive(votes, VoteWeight());
    SumAtMost(votes, Nothing(), AgreeingWeight());
    SumNothing(votes);
    RatioUnit(Sum(votes, AgreeingWeight()), Sum(votes, VoteWeight()));
  }

  function Nothing(): Vote -> real { (v: Vote) => 0.0 }

  lemma {:induction false} SumNothing(votes: seq<Vote>)
    ensures Sum(votes, Nothing()) == 0.0
  {
    if votes != [] { SumNothing(votes[..|votes| - 1]); }
  }

  function Availability(usable: nat, configured: nat): real
    requires usable <= configured
  {
    Ratio(usable as real, configured as real)
  }

  lemma {:induction false} AvailabilityOneExactly(usable: nat, configured: nat)
    requires usable <= configured && 0 < configured
    ensures 0.0 <= Availability(usable, configured) <= 1.0
    ensures Availability(usable, configured) == 1.0 <==> usable == configured
  {
    RatioUnit(usable as real, configured as real);
  }

  /** The share of the expected classes that are represented. */
  function Diversity(represented: set<string>, expected: set<string>): real {
    Ratio(|represented * expected| as real, |expected| as real)
  }

  lemma {:induction false} SubsetSmaller<T>(a: set<T>, b: set<T>)
    requires a <= b
    ensures |a| <= |b| && (|a| == |b| <==> a == b)
  {
    assert b == a + (b - a);
    assert |b| == |a| + |b - a|;
  }

  /** A missing class costs at least one part in the number of expected classes. */
  lemma {:induction false} DiversityOneExactly(represented: set<string>, expected: set<string>)
    requires expected != {}
    ensures 0.0 <= Diversity(represented, expected) <= 1.0
    ensures Diversity(represented, expected) == 1.0 <==> expected <= represented
    ensures !(expected <= represented) ==> Diversity(represented, expected) <= 1.0 - 1.0 / |expected| as real
  {
    var here := represented * expected;
    SubsetSmaller(here, expected);
    RatioUnit(|here| as real, |expected| as real);
    if !(expected <= represented) {
      assert here != expected;
      var n, k := |expected| as real, |here| as real;
      assert k <= n - 1.0;
      assert k / n <= (n - 1.0) / n == 1.0 - 1.0 / n;
    }
  }

  /** Ratios are proportions: scaled back by the whole they give the part. */
  lemma {:induction false} RatioScalesBack(part: real, whole: real)
    requires whole != 0.0
    ensures Ratio(part, whole) * whole == part
  {}

  /** One more vote adds its weight to the total, and to the agreeing weight exactly when it agrees. */
  lemma {:induction false} OneMoreVote(votes: seq<Vote>, v: Vote)
    requires WeightedAgreement(votes).Some? && v.weight >= 0.0 && WeightedAgreement(votes).value.totalWeight + v.weight > 0.0
    ensures WeightedAgreement(votes + [v]).Some?
    ensures var before, after := WeightedAgreement(votes).value, WeightedAgreement(votes + [v]).value;
      && after.totalWeight == before.totalWeight + v.weight
      && after.agreeingWeight == before.agreeingWeight + (if v.agrees then v.weight else 0.0)
      && after.score * after.totalWeight == after.agreeingWeight
  {
    assert (votes + [v])[..|votes|] == votes;
    var total := WeightedAgreement(votes).value.totalWeight + v.weight;
    RatioScalesBack(Sum(votes + [v], AgreeingWeight()), total);
  }

  /** Availability and diversity count sources and classes in equal shares. */
  lemma {:induction false} EqualShares(usable: nat, configured: nat, represented: set<string>, expected: set<string>)
    requires usable <= configured && 0 < configured && expected != {}
    ensures Availability(usable, configured) * configured as real == usable as real
    ensures Diversity(represented, expected) * |expected| as real == |represented * expected| as real
  {
    RatioScalesBack(usable as real, configured as real);
    RatioScalesBack(|represented * expected| as real, |expected| as real);
  }
}
