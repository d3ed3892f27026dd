/** The order-book depth profile: how two books are compared, and that it meets what reconciliation asks of a profile. */
module Depth {
  import opened Outcomes
  import opened Discrepancy
  import opened Reconcile
  import opened ReconcileLaws
  import WeightedMedian

  const BANDS: nat := 3
  const TOLERANCE_BASIS_POINTS: nat := 50
  const DELTA_CEILING: nat := 1000000
  /** The derivation family every depth observation names as its upstream. */
  const FAMILY: string := "horizon_sdex_offers"

  /** Amounts in stroops, one for each of the three price bands of a side; the reference price by its terms. */
  datatype RawBook = RawBook(bids: seq<nat>, asks: seq<nat>, numerator: string, denominator: string)

  predicate Cumulative(side: seq<nat>) { |side| == BANDS && forall i, j | 0 <= i < j < |side| :: side[i] <= side[j] }

  /** What the observation schema leaves of the buckets: each exactly once, cumulative on both sides. */
  type Book = b: RawBook | Cumulative(b.bids) && Cumulative(b.asks) witness RawBook([0, 0, 0], [0, 0, 0], "1", "1")

  /** The deviation of one bucket in basis points of the reference, rounded down and cut off. */
  function Delta(observed: nat, reference: nat): nat {
    var gap := if observed >= reference then observed - reference else reference - observed;
    var scaled := gap * 10000 / (if reference == 0 then 1 else reference);
    if scaled > DELTA_CEILING then DELTA_CEILING else scaled
  }

  function Max(a: nat, b: nat): nat { if a >= b then a else b }

  function SideDelta(observed: seq<nat>, reference: seq<nat>, n: nat): nat
    requires n <= |observed| && n <= |reference|
  {
    if n == 0 then 0 else Max(SideDelta(observed, reference, n - 1), Delta(observed[n - 1], reference[n - 1]))
  }

  function MaximumDelta(observed: Book, reference: Book): nat {
    Max(SideDelta(observed.bids, reference.bids, BANDS), SideDelta(observed.asks, reference.asks, BANDS))
  }

  method MaximumDeltaBasisPoints(observed: Book, reference: Book) returns (maximum: nat)
    ensures maximum == MaximumDelta(observed, reference)
  {
    maximum := 0;
    for i := 0 to BANDS
      invariant maximum == SideDelta(observed.bids, reference.bids, i)
    {
      maximum := Max(maximum, Delta(observed.bids[i], reference.bids[i]));
    }
    for i := 0 to BANDS
      invariant maximum == Max(SideDelta(observed.bids, reference.bids, BANDS), SideDelta(observed.asks, reference.asks, i))
    {
      maximum := Max(maximum, Delta(observed.asks[i], reference.asks[i]));
    }
  }

  predicate SamePrice(left: Book, right: Book) { left.numerator == right.numerator && left.denominator == right.denominator }

  predicate Agrees(left: Book, right: Book) { SamePrice(left, right) && MaximumDelta(left, right) <= TOLERANCE_BASIS_POINTS }

  /** Books are ordered by the sum of their outermost buckets. */
  function Outer(b: Book): int { b.bids[2] + b.asks[2] }

  function Compare(left: Book, right: Book): int { Outer(left) - Outer(right) }

  function BandOf(observed: Book, reference: Book): Band {
    if Agrees(observed, reference) then WithinTolerance else Discrepancy.AboveInfo
  }

  function Spread(observed: Book, reference: Book): real {
    var share := MaximumDelta(observed, reference) as real / 10000.0;
    if share < 1.0 then share else 1.0
  }

  const PROFILE: Profile<Book> := Profile(Compare, Agrees, BandOf, Spread, 1.0, Some(20.0))

  // ---- Laws --------------------------------------------------------------------------------------

  /** Agreement in terms of the buckets: rounding down makes the tolerance end just below 51 basis points, not at 50. */
  lemma {:induction false} DeltaWithinExactly(observed: nat, reference: nat)
    ensures Delta(observed, reference) <= TOLERANCE_BASIS_POINTS <==>
              (if observed >= reference then observed - reference else reference - observed) * 10000
              < 51 * (if reference == 0 then 1 else reference)
  {
    var gap := if observed >= reference then observed - reference else reference - observed;
    var base := if reference == 0 then 1 else reference;
    QuotientBelow(gap * 10000, base, 51);
  }

  lemma {:induction false} QuotientBelow(x: nat, base: nat, k: nat)
    requires base > 0
    ensures x / base < k <==> x < k * base
  {
    assert x == x / base * base + x % base;
    if x / base < k {
      assert (k - 1 - x / base) * base >= 0;
      assert (k - 1 - x / base) * base == k * base - base - x / base * base;
    } else {
      assert (x / base - k) * base >= 0;
      assert (x / base - k) * base == x / base * base - k * base;
    }
  }

  /** A deviation reaches a number of basis points, up to the ceiling, exactly when the gap is that share of the reference. */
  lemma {:induction false} DeltaReachesExactly(observed: nat, reference: nat, points: nat)
    requires points <= 1000000
    ensures Delta(observed, reference) <= 1000000
    ensures Delta(observed, reference) >= points <==>
              (if observed > reference then observed - reference else reference - observed) * 10000
              >= points * (if reference == 0 then 1 else reference)
  {
    var gap := if observed > reference then observed - reference else reference - observed;
    if points > 0 { QuotientBelow(gap * 10000, if reference == 0 then 1 else reference, points); }
  }

  lemma {:induction false} SideIsGreatest(observed: seq<nat>, reference: seq<nat>, n: nat)
    requires n <= |observed| && n <= |reference|
    ensures forall i | 0 <= i < n :: Delta(observed[i], reference[i]) <= SideDelta(observed, reference, n)
    ensures SideDelta(observed, reference, n) == 0
            || exists i :: 0 <= i < n && Delta(observed[i], reference[i]) == SideDelta(observed, reference, n)
  {
    if n > 0 { SideIsGreatest(observed, reference, n - 1); }
  }

  ghost predicate Attained(observed: Book, reference: Book, points: nat) {
    || (exists i :: 0 <= i < 3 && Delta(observed.bids[i], reference.bids[i]) == points)
    || (exists i :: 0 <= i < 3 && Delta(observed.asks[i], reference.asks[i]) == points)
  }

  /** The deviation of a book is that of its most deviating bucket, and its spread the same as a share of at most one. */
  lemma {:induction false} DeviationIsGreatest(observed: Book, reference: Book)
    ensures var most := MaximumDelta(observed, reference);
      && (forall i | 0 <= i < 3 ::
            Delta(observed.bids[i], reference.bids[i]) <= most && Delta(observed.asks[i], reference.asks[i]) <= most)
      && (most == 0 || Attained(observed, reference, most))
      && (most <= 10000 ==> Spread(observed, reference) * 10000.0 == most as real)
      && (most >= 10000 ==> Spread(observed, reference) == 1.0)
  {
    SideIsGreatest(observed.bids, reference.bids, BANDS);
    SideIsGreatest(observed.asks, reference.asks, BANDS);
  }

  /** A book counts as smaller exactly when its two widest bands hold less, and it agrees or deviates above Info. */
  lemma {:induction false} BooksCompare(left: Book, right: Book)
    ensures PROFILE.cmp(left, right) < 0 <==> left.bids[2] + left.asks[2] < right.bids[2] + right.asks[2]
    ensures PROFILE.cmp(left, right) == 0 <==> left.bids[2] + left.asks[2] == right.bids[2] + right.asks[2]
    ensures PROFILE.band(left, right) == (if PROFILE.agrees(left, right) then WithinTolerance else Discrepancy.AboveInfo)
    ensures PROFILE.maximumSpread == 1.0 && PROFILE.maximumAge == Some(20.0)
  {}

  lemma {:induction false} SideWithinExactly(observed: seq<nat>, reference: seq<nat>, n: nat, bound: nat)
    requires n <= |observed| && n <= |reference|
    ensures SideDelta(observed, reference, n) <= bound <==> forall i | 0 <= i < n :: Delta(observed[i], reference[i]) <= bound
  {
    if n > 0 { SideWithinExactly(observed, reference, n - 1, bound); }
  }

  /** Two books agree exactly when their prices have the same terms and every bucket is within tolerance. */
  lemma {:induction false} AgreesExactly(left: Book, right: Book)
    ensures Agrees(left, right) <==>
              && left.numerator == right.numerator && left.denominator == right.denominator
              && (forall i | 0 <= i < BANDS :: Delta(left.bids[i], right.bids[i]) <= TOLERANCE_BASIS_POINTS)
              && (forall i | 0 <= i < BANDS :: Delta(left.asks[i], right.asks[i]) <= TOLERANCE_BASIS_POINTS)
  {
    SideWithinExactly(left.bids, right.bids, BANDS, TOLERANCE_BASIS_POINTS);
    SideWithinExactly(left.asks, right.asks, BANDS, TOLERANCE_BASIS_POINTS);
  }

  /** Agreement is measured against the reference and is not symmetric. */
  lemma {:induction false} AgreementHasADirection() returns (left: Book, right: Book)
    ensures Agrees(left, right) && !Agrees(right, left)
  {
    left := RawBook([10000, 10000, 10000], [10000, 10000, 10000], "1", "1");
    right := RawBook([10051, 10051, 10051], [10051, 10051, 10051], "1", "1");
    AgreesExactly(left, right);
    AgreesExactly(right, left);
    assert Delta(left.bids[0], right.bids[0]) == 50 && Delta(right.bids[0], left.bids[0]) == 51;
  }

  function Gap(a: nat, b: nat): nat { if a >= b then a - b else b - a }

  /** Both amounts are zero, or neither is and their gap is below 51 basis points of the smaller one. */
  predicate Alike(a: nat, b: nat) {
    (a == 0 <==> b == 0) && (a > 0 && b > 0 ==> Gap(a, b) * 10000 < 51 * if a < b then a else b)
  }

  lemma {:induction false} AlikeExactly(a: nat, b: nat)
    ensures Delta(a, b) <= TOLERANCE_BASIS_POINTS && Delta(b, a) <= TOLERANCE_BASIS_POINTS <==> Alike(a, b)
  {
    DeltaWithinExactly(a, b);
    DeltaWithinExactly(b, a);
  }

  /** Two books agree whichever is the reference exactly when their prices agree and all their buckets are alike. */
  lemma {:induction false} AgreeBothWaysExactly(left: Book, right: Book)
    ensures Agrees(left, right) && Agrees(right, left) <==>
              && left.numerator == right.numerator && left.denominator == right.denominator
              && (forall i | 0 <= i < BANDS :: Alike(left.bids[i], right.bids[i]))
              && (forall i | 0 <= i < BANDS :: Alike(left.asks[i], right.asks[i]))
  {
    AgreesExactly(left, right);
    AgreesExactly(right, left);
    forall i | 0 <= i < BANDS
      ensures Delta(left.bids[i], right.bids[i]) <= TOLERANCE_BASIS_POINTS && Delta(right.bids[i], left.bids[i]) <= TOLERANCE_BASIS_POINTS
              <==> Alike(left.bids[i], right.bids[i])
      ensures Delta(left.asks[i], right.asks[i]) <= TOLERANCE_BASIS_POINTS && Delta(right.asks[i], left.asks[i]) <= TOLERANCE_BASIS_POINTS
              <==> Alike(left.asks[i], right.asks[i])
    {
      AlikeExactly(left.bids[i], right.bids[i]);
      AlikeExactly(left.asks[i], right.asks[i]);
    }
  }

  /** The profile meets its contract: a total order, and comparisons that never contradict each other or throw. */
  lemma {:induction false} ProfileIsSound(o: Observation<Book>, reference: Book)
    ensures WeightedMedian.Comparator(PROFILE.cmp) && SoundProfile(PROFILE)
    ensures SoundComparison(PROFILE, o, reference) && PROFILE.spread(o.value, reference) <= PROFILE.maximumSpread
    ensures PROFILE.agrees(reference, reference)
  {
    AgreesExactly(reference, reference);
  }

  /** Whatever the books say, a depth reconciliation under its configured bounds is never verified. */
  lemma {:induction false} DepthIsNeverVerified(input: Input<Book>)
    requires input.profile == PROFILE && OneDerivationBounds(input.methodology)
    requires forall o | o in input.observations :: o.upstreamId == FAMILY
    ensures ReconcileCycle(input).Ok? ==> ReconcileCycle(input).value.status != Verified
  {
    OneDerivationNeverVerified(input, FAMILY);
  }
}
