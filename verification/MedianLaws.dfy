/** What the weighted median means, and that the order of its inputs does not matter. */
module MedianLaws {
  import opened Outcomes
  import opened Sorting
  import opened TextOrder
  import opened Keys
  import opened Totals
  import opened WeightedMedian

  function IdOf<T>(): Reading<T> -> string { (r: Reading<T>) => r.id }

  ghost predicate UniqueIds<T>(s: seq<Reading<T>>) { DistinctBy(s, IdOf()) }

  ghost predicate Sound<T>(s: seq<Reading<T>>) {
    UniqueIds(s) && forall r | r in s :: r.id != "" && r.weight >= 0.0
  }

  lemma {:induction false} SoundGrows<T>(prefix: seq<Reading<T>>, last: Reading<T>)
    requires Sound(prefix)
    ensures Sound(prefix + [last]) <==> !HasId(prefix, last.id) && last.id != "" && last.weight >= 0.0
  {
    var s := prefix + [last];
    if HasId(prefix, last.id) {
      var i :| 0 <= i < |prefix| && prefix[i].id == last.id;
      assert IdOf<T>()(s[i]) == IdOf<T>()(s[|prefix|]);
    } else {
      forall i, j | 0 <= i < j < |s| ensures IdOf<T>()(s[i]) != IdOf<T>()(s[j]) {
        assert j < |prefix| ==> IdOf<T>()(prefix[i]) != IdOf<T>()(prefix[j]);
      }
    }
    assert s[|prefix|] == last;
  }

  lemma {:induction false} SoundPrefix<T>(prefix: seq<Reading<T>>, last: Reading<T>)
    requires Sound(prefix + [last])
    ensures Sound(prefix)
  {
    var s := prefix + [last];
    forall i, j | 0 <= i < j < |prefix| ensures IdOf<T>()(prefix[i]) != IdOf<T>()(prefix[j]) {
      assert IdOf<T>()(s[i]) != IdOf<T>()(s[j]);
    }
    assert forall r | r in prefix :: r in s;
  }

  lemma {:induction false} FaultlessExactly<T>(s: seq<Reading<T>>)
    ensures FirstFault(s).None? <==> Sound(s)
  {
    if s != [] {
      var prefix, last := s[..|s| - 1], s[|s| - 1];
      FaultlessExactly(prefix);
      assert s == prefix + [last];
      if Sound(prefix) { SoundGrows(prefix, last); } else if Sound(s) { SoundPrefix(prefix, last); }
    }
  }

  /** The inputs that are rejected, and those that have no median, told without the order of the checks. */
  lemma {:induction false} OutcomeExactly<T(!new)>(inputs: seq<Reading<T>>, cmp: (T, T) -> int)
    ensures Compute(inputs, cmp).Ok? <==> Sound(inputs)
    ensures Compute(inputs, cmp) == Ok(None) <==> Sound(inputs) && forall r | r in inputs :: r.weight == 0.0
  {
    FaultlessExactly(inputs);
    forall r | r in inputs && r.weight != 0.0 ensures Contributing(inputs) != [] {
      CollectedExactly(inputs, Weighted(), r);
      var i :| 0 <= i < |inputs| && inputs[i] == r;
      assert r in Weighted()(inputs[i]);
    }
    if Contributing(inputs) != [] {
      var r := Contributing(inputs)[0];
      CollectedExactly(inputs, Weighted(), r);
      var i :| 0 <= i < |inputs| && r in Weighted()(inputs[i]);
      assert r == inputs[i] && r.weight != 0.0;
    }
  }

  // ---- The two halves ----------------------------------------------------------------------------

  /** Less than half of the weight lies strictly below `m`, at most half strictly above. */
  ghost predicate LowerMedian<T>(inputs: seq<Reading<T>>, cmp: (T, T) -> int, m: T) {
    && 2.0 * Sum(inputs, WeightBelow(cmp, m)) < Sum(inputs, Weight())
    && 2.0 * Sum(inputs, WeightAbove(cmp, m)) <= Sum(inputs, Weight())
  }

  lemma {:induction false} CrossingHalf<T>(sorted: seq<Reading<T>>, i: nat, half: real)
    requires i < |sorted| && Sum(sorted[..i], Weight()) < half <= Sum(sorted, Weight())
    ensures var k := Crossing(sorted, i, Sum(sorted[..i], Weight()), half);
      Sum(sorted[..k], Weight()) < half <= Sum(sorted[..k + 1], Weight())
    decreases |sorted| - i
  {
    assert sorted[..i + 1][..i] == sorted[..i];
    if i == |sorted| - 1 {
      assert sorted[..i + 1] == sorted;
    } else if Sum(sorted[..i + 1], Weight()) < half {
      CrossingHalf(sorted, i + 1, half);
    }
  }

  lemma {:induction false} SplitSums<T>(s: seq<T>, k: nat, below: T -> real, above: T -> real, w: T -> real)
    requires k < |s| && forall x | x in s :: below(x) <= w(x) && above(x) <= w(x)
    requires Sum(s[k..], below) <= 0.0 && Sum(s[..k + 1], above) <= 0.0
    requires 2.0 * Sum(s[..k], w) < Sum(s, w) <= 2.0 * Sum(s[..k + 1], w)
    ensures 2.0 * Sum(s, below) < Sum(s, w) && 2.0 * Sum(s, above) <= Sum(s, w)
  {
    assert s == s[..k] + s[k..] && s == s[..k + 1] + s[k + 1..];
    SumConcat(s[..k], s[k..], below);
    SumConcat(s[..k + 1], s[k + 1..], above);
    SumConcat(s[..k + 1], s[k + 1..], w);
    SumAtMost(s[..k], below, w);
    SumAtMost(s[k + 1..], above, w);
  }

  lemma {:induction false} SortedHalves<T(!new)>(sorted: seq<Reading<T>>, cmp: (T, T) -> int, k: nat)
    requires Comparator(cmp) && SortedBy(sorted, Order(cmp)) && k < |sorted|
    requires forall r | r in sorted :: r.weight > 0.0
    requires 2.0 * Sum(sorted[..k], Weight()) < Sum(sorted, Weight()) <= 2.0 * Sum(sorted[..k + 1], Weight())
    ensures LowerMedian(sorted, cmp, sorted[k].value)
  {
    NoneBeyond(sorted, cmp, k);
    SplitSums(sorted, k, WeightBelow(cmp, sorted[k].value), WeightAbove(cmp, sorted[k].value), Weight());
  }

  lemma {:induction false} NoneBeyond<T(!new)>(sorted: seq<Reading<T>>, cmp: (T, T) -> int, k: nat)
    requires Comparator(cmp) && SortedBy(sorted, Order(cmp)) && k < |sorted|
    ensures Sum(sorted[k..], WeightBelow(cmp, sorted[k].value)) <= 0.0
    ensures Sum(sorted[..k + 1], WeightAbove(cmp, sorted[k].value)) <= 0.0
  {
    var m := sorted[k].value;
    var le := Order(cmp);
    forall r | r in sorted[k..] ensures WeightBelow(cmp, m)(r) <= 0.0 {
      var i :| k <= i < |sorted| && sorted[i] == r;
      assert i == k || le(sorted[k], sorted[i]);
      assert cmp(m, m) == 0;
    }
    forall r | r in sorted[..k + 1] ensures WeightAbove(cmp, m)(r) <= 0.0 {
      var i :| 0 <= i <= k && sorted[i] == r;
      assert i == k || le(sorted[i], sorted[k]);
      assert cmp(m, m) == 0;
    }
    SumNonpositive(sorted[k..], WeightBelow(cmp, m));
    SumNonpositive(sorted[..k + 1], WeightAbove(cmp, m));
  }

  lemma {:induction false} ContributingSum<T>(s: seq<Reading<T>>, f: Reading<T> -> real)
    requires forall r | r in s && r.weight == 0.0 :: f(r) == 0.0
    ensures Sum(Contributing(s), f) == Sum(s, f)
  {
    if s != [] {
      var prefix, last := s[..|s| - 1], s[|s| - 1];
      ContributingSum(prefix, f);
      SumConcat(Contributing(prefix), Weighted()(last), f);
      if last.weight != 0.0 {
        assert [last][..0] == [];
        assert Sum([last], f) == f(last);
      }
    }
  }

  lemma {:induction false} ContributesExactly<T>(s: seq<Reading<T>>, r: Reading<T>)
    ensures r in Contributing(s) <==> r in s && r.weight != 0.0
  {
    CollectedExactly(s, Weighted(), r);
    if r in s && r.weight != 0.0 {
      var i :| 0 <= i < |s| && s[i] == r;
      assert r in Weighted()(s[i]);
    }
  }

  /** The sorted readings carry the same sums as the inputs. */
  lemma {:induction false} SortedSums<T(!new)>(inputs: seq<Reading<T>>, cmp: (T, T) -> int, f: Reading<T> -> real)
    requires Comparator(cmp) && forall r | r in inputs && r.weight == 0.0 :: f(r) == 0.0
    ensures Sum(Sort(Contributing(inputs), Order(cmp)), f) == Sum(inputs, f)
  {
    OrderIsTotal(cmp);
    SortCorrect(Contributing(inputs), Order(cmp));
    SumForgetsOrder(Sort(Contributing(inputs), Order(cmp)), Contributing(inputs), f);
    ContributingSum(inputs, f);
  }

  lemma {:induction false} SortedReadings<T(!new)>(inputs: seq<Reading<T>>, cmp: (T, T) -> int)
    requires Comparator(cmp)
    ensures var sorted := Sort(Contributing(inputs), Order(cmp));
      SortedBy(sorted, Order(cmp)) && forall r | r in sorted :: r in inputs && r.weight != 0.0
  {
    OrderIsTotal(cmp);
    SortCorrect(Contributing(inputs), Order(cmp));
    forall r | r in Sort(Contributing(inputs), Order(cmp)) ensures r in inputs && r.weight != 0.0 {
      assert r in multiset(Contributing(inputs));
      ContributesExactly(inputs, r);
    }
  }

  lemma {:induction false} SortedTotals<T(!new)>(inputs: seq<Reading<T>>, cmp: (T, T) -> int, m: T)
    requires Comparator(cmp)
    ensures var sorted := Sort(Contributing(inputs), Order(cmp));
      && Sum(sorted, Weight()) == Sum(inputs, Weight())
      && (LowerMedian(sorted, cmp, m) <==> LowerMedian(inputs, cmp, m))
  {
    SortedSums(inputs, cmp, Weight());
    SortedSums(inputs, cmp, WeightBelow(cmp, m));
    SortedSums(inputs, cmp, WeightAbove(cmp, m));
  }

  function Chosen<T>(sorted: seq<Reading<T>>): Reading<T>
    requires sorted != []
  {
    sorted[Crossing(sorted, 0, 0.0, Sum(sorted, Weight()) / 2.0)]
  }

  /** The weights before the chosen position are less than half, with its own at least half. */
  lemma {:induction false} ChosenAtHalf<T>(sorted: seq<Reading<T>>) returns (k: nat)
    requires sorted != [] && forall r | r in sorted :: r.weight > 0.0
    ensures k < |sorted| && sorted[k] == Chosen(sorted) && Sum(sorted, Weight()) > 0.0
    ensures 2.0 * Sum(sorted[..k], Weight()) < Sum(sorted, Weight()) <= 2.0 * Sum(sorted[..k + 1], Weight())
  {
    SumPositive(sorted, Weight());
    assert sorted[..0] == [];
    CrossingHalf(sorted, 0, Sum(sorted, Weight()) / 2.0);
    k := Crossing(sorted, 0, 0.0, Sum(sorted, Weight()) / 2.0);
  }

  lemma {:induction false} ChosenIsMedian<T(!new)>(sorted: seq<Reading<T>>, cmp: (T, T) -> int)
    requires Comparator(cmp) && SortedBy(sorted, Order(cmp))
    requires sorted != [] && forall r | r in sorted :: r.weight > 0.0
    ensures LowerMedian(sorted, cmp, Chosen(sorted).value) && Sum(sorted, Weight()) > 0.0
  {
    var k := ChosenAtHalf(sorted);
    SortedHalves(sorted, cmp, k);
  }

  /** The selected value belongs to a reading of positive weight and splits the total weight in halves. */
  lemma {:induction false} SelectsLowerMedian<T(!new)>(inputs: seq<Reading<T>>, cmp: (T, T) -> int, m: Median<T>)
    requires Comparator(cmp) && Compute(inputs, cmp) == Ok(Some(m))
    ensures LowerMedian(inputs, cmp, m.value) && m.totalWeight == Sum(inputs, Weight()) > 0.0
    ensures exists r :: r in inputs && r.id == m.selectedId && r.value == m.value && r.weight > 0.0
  {
    FaultlessExactly(inputs);
    var sorted := Sort(Contributing(inputs), Order(cmp));
    SortedReadings(inputs, cmp);
    ChosenIsMedian(sorted, cmp);
    SortedTotals(inputs, cmp, m.value);
    assert Chosen(sorted) in inputs;
  }

  /** Only one value, up to ties, splits the weight that way: the definition needs no ids and no sorting. */
  lemma {:induction false} LowerMedianUnique<T(!new)>(inputs: seq<Reading<T>>, cmp: (T, T) -> int, v: T, w: T)
    requires Comparator(cmp) && forall r | r in inputs :: r.weight >= 0.0
    requires LowerMedian(inputs, cmp, v) && LowerMedian(inputs, cmp, w)
    ensures cmp(v, w) == 0
  {
    if cmp(v, w) < 0 {
      MedianNotBelow(inputs, cmp, v, w);
    } else if cmp(w, v) < 0 {
      MedianNotBelow(inputs, cmp, w, v);
    }
  }

  lemma {:induction false} MedianNotBelow<T(!new)>(inputs: seq<Reading<T>>, cmp: (T, T) -> int, v: T, w: T)
    requires Comparator(cmp) && forall r | r in inputs :: r.weight >= 0.0
    requires LowerMedian(inputs, cmp, v) && LowerMedian(inputs, cmp, w)
    ensures cmp(v, w) >= 0
  {
    if cmp(v, w) < 0 {
      forall r | r in inputs ensures WeightAbove(cmp, v)(r) >= Weight()(r) + -1.0 * WeightBelow(cmp, w)(r) {
        assert cmp(r.value, w) >= 0 ==> cmp(w, r.value) <= 0;
        assert cmp(r.value, v) <= 0 && cmp(v, w) <= 0 ==> cmp(r.value, w) <= 0;
      }
      SumLinear(inputs, Weight(), -1.0, WeightBelow(cmp, w), WeightAbove(cmp, v));
    }
  }

  // ---- Optimality --------------------------------------------------------------------------------

  function Distance(a: int, b: int): real { if a < b then (b - a) as real else (a - b) as real }

  function Deviation(x: int): Reading<int> -> real { (r: Reading<int>) => r.weight * Distance(r.value, x) }

  /** The weighted sum of absolute deviations from `x`. */
  function Cost(inputs: seq<Reading<int>>, x: int): real { Sum(inputs, Deviation(x)) }

  function Surplus(side: Reading<int> -> real): Reading<int> -> real {
    (r: Reading<int>) => r.weight - 2.0 * side(r)
  }

  lemma {:induction false} SurplusSum(inputs: seq<Reading<int>>, side: Reading<int> -> real)
    ensures Sum(inputs, Surplus(side)) >= Sum(inputs, Weight()) - 2.0 * Sum(inputs, side)
  {
    SumLinear(inputs, Weight(), -2.0, side, Surplus(side));
  }

  lemma {:induction false} DeviationRight(r: Reading<int>, m: int, x: int)
    requires r.weight >= 0.0 && m <= x
    ensures Deviation(x)(r) >= Deviation(m)(r) + (x - m) as real * Surplus(WeightAbove(Difference, m))(r)
  {
    var gap := (x - m) as real;
    if r.value <= m {
      assert Distance(r.value, x) == Distance(r.value, m) + gap;
    } else {
      assert Surplus(WeightAbove(Difference, m))(r) == r.weight - 2.0 * r.weight;
    }
  }

  lemma {:induction false} DeviationLeft(r: Reading<int>, m: int, x: int)
    requires r.weight >= 0.0 && x <= m
    ensures Deviation(x)(r) >= Deviation(m)(r) + (m - x) as real * Surplus(WeightBelow(Difference, m))(r)
  {
    var gap := (m - x) as real;
    if r.value >= m {
      assert Distance(r.value, x) == Distance(r.value, m) + gap;
    } else {
      assert Surplus(WeightBelow(Difference, m))(r) == r.weight - 2.0 * r.weight;
    }
  }

  /** For integers the selected value is the smallest of all integers that minimise the weighted absolute deviation. */
  lemma {:induction false} MedianIsSmallestMinimiser(inputs: seq<Reading<int>>, m: Median<int>, x: int)
    requires ComputeIntegers(inputs) == Ok(Some(m))
    ensures Cost(inputs, m.value) <= Cost(inputs, x)
    ensures x < m.value ==> Cost(inputs, m.value) < Cost(inputs, x)
  {
    FaultlessExactly(inputs);
    SelectsLowerMedian(inputs, Difference, m);
    if x >= m.value {
      CostRight(inputs, m.value, x);
    } else {
      CostLeft(inputs, m.value, x);
    }
  }

  lemma {:induction false} CostRight(inputs: seq<Reading<int>>, m: int, x: int)
    requires (forall r | r in inputs :: r.weight >= 0.0) && LowerMedian(inputs, Difference, m) && m <= x
    ensures Cost(inputs, m) <= Cost(inputs, x)
  {
    var side := WeightAbove(Difference, m);
    forall r | r in inputs ensures Deviation(x)(r) >= Deviation(m)(r) + (x - m) as real * Surplus(side)(r) {
      DeviationRight(r, m, x);
    }
    SumLinear(inputs, Deviation(m), (x - m) as real, Surplus(side), Deviation(x));
    SurplusSum(inputs, side);
    assert (x - m) as real * Sum(inputs, Surplus(side)) >= 0.0;
  }

  lemma {:induction false} CostLeft(inputs: seq<Reading<int>>, m: int, x: int)
    requires (forall r | r in inputs :: r.weight >= 0.0) && LowerMedian(inputs, Difference, m) && x < m
    ensures Cost(inputs, m) < Cost(inputs, x)
  {
    var side := WeightBelow(Difference, m);
    forall r | r in inputs ensures Deviation(x)(r) >= Deviation(m)(r) + (m - x) as real * Surplus(side)(r) {
      DeviationLeft(r, m, x);
    }
    SumLinear(inputs, Deviation(m), (m - x) as real, Surplus(side), Deviation(x));
    SurplusSum(inputs, side);
    assert (m - x) as real * Sum(inputs, Surplus(side)) > 0.0;
  }

  // ---- A majority brackets the median ------------------------------------------------------------

  function WeightIn<T>(ids: set<string>): Reading<T> -> real {
    (r: Reading<T>) => if r.id in ids then r.weight else 0.0
  }

  /** Readings that hold more than half of the weight have the selected value between their least and their greatest. */
  lemma {:induction false} MajorityBrackets<T(!new)>(inputs: seq<Reading<T>>, cmp: (T, T) -> int, m: Median<T>, ids: set<string>)
    requires Comparator(cmp) && Compute(inputs, cmp) == Ok(Some(m))
    requires 2.0 * Sum(inputs, WeightIn(ids)) > Sum(inputs, Weight())
    ensures exists lo :: lo in inputs && lo.id in ids && lo.weight > 0.0 && cmp(lo.value, m.value) <= 0
    ensures exists hi :: hi in inputs && hi.id in ids && hi.weight > 0.0 && cmp(hi.value, m.value) >= 0
  {
    FaultlessExactly(inputs);
    SelectsLowerMedian(inputs, cmp, m);
    MajorityReaches(inputs, ids, WeightAbove(cmp, m.value));
    MajorityReaches(inputs, ids, WeightBelow(cmp, m.value));
  }

  /** A side that holds at most half of the weight cannot hold all of a majority. */
  lemma {:induction false} MajorityReaches<T(!new)>(inputs: seq<Reading<T>>, ids: set<string>, side: Reading<T> -> real)
    requires forall r | r in inputs :: r.weight >= 0.0 && side(r) >= 0.0
    requires 2.0 * Sum(inputs, WeightIn(ids)) > Sum(inputs, Weight()) >= 2.0 * Sum(inputs, side)
    ensures exists r :: r in inputs && r.id in ids && r.weight > 0.0 && side(r) != r.weight
  {
    if forall r | r in inputs && r.id in ids && r.weight > 0.0 :: side(r) == r.weight {
      SumAtMost(inputs, WeightIn(ids), side);
      assert false;
    }
  }

  // ---- Every id is reported once -----------------------------------------------------------------

  function Anyone<T>(): Reading<T> -> bool { (r: Reading<T>) => true }

  function NotAbove<T>(cmp: (T, T) -> int, m: T): Reading<T> -> bool {
    (r: Reading<T>) => cmp(r.value, m) <= 0
  }

  lemma {:induction false} SidesShareIds<T>(sorted: seq<Reading<T>>, cmp: (T, T) -> int, m: T)
    ensures multiset(IdsWhere(sorted, Compares(cmp, m, -1))) + multiset(IdsWhere(sorted, Compares(cmp, m, 0)))
          + multiset(IdsWhere(sorted, Compares(cmp, m, 1))) == multiset(IdsWhere(sorted, Anyone()))
  {
    CollectShares(sorted, IdIf(Compares(cmp, m, -1)), IdIf(Compares(cmp, m, 0)), IdIf(NotAbove(cmp, m)));
    CollectShares(sorted, IdIf(NotAbove(cmp, m)), IdIf(Compares(cmp, m, 1)), IdIf(Anyone()));
  }

  lemma {:induction false} SortKeepsIds<T(!new)>(inputs: seq<Reading<T>>, cmp: (T, T) -> int)
    requires Comparator(cmp)
    ensures var sorted := Sort(Contributing(inputs), Order(cmp));
      multiset(IdsWhere(sorted, Anyone())) == multiset(IdsWhere(Contributing(inputs), Anyone()))
  {
    OrderIsTotal(cmp);
    SortCorrect(Contributing(inputs), Order(cmp));
    CollectForgetsOrder(Sort(Contributing(inputs), Order(cmp)), Contributing(inputs), IdIf(Anyone()));
  }

  lemma {:induction false} SortedTexts(ids: seq<string>)
    ensures multiset(Sort(ids, ByText())) == multiset(ids)
  {
    AtMostIsTotal();
    assert TotalPreorder(ByText());
    SortCorrect(ids, ByText());
  }

  /** The four lists of ids are a partition of the inputs' ids. */
  lemma {:induction false} IdsAreSharedOut<T(!new)>(inputs: seq<Reading<T>>, cmp: (T, T) -> int, m: Median<T>)
    requires Comparator(cmp) && Compute(inputs, cmp) == Ok(Some(m))
    ensures multiset(m.belowIds) + multiset(m.atIds) + multiset(m.aboveIds) + multiset(m.excludedIds)
         == multiset(IdsWhere(inputs, Anyone()))
  {
    SidesShareIds(Sort(Contributing(inputs), Order(cmp)), cmp, m.value);
    SortKeepsIds(inputs, cmp);
    SortedTexts(IdsWhere(inputs, Unweighted()));
    WeightedOrNot(inputs);
  }

  lemma {:induction false} WeightedOrNot<T>(s: seq<Reading<T>>)
    ensures multiset(IdsWhere(Contributing(s), Anyone())) + multiset(IdsWhere(s, Unweighted())) == multiset(IdsWhere(s, Anyone()))
  {
    if s != [] {
      var prefix, last := s[..|s| - 1], s[|s| - 1];
      WeightedOrNot(prefix);
      CollectConcat(Contributing(prefix), Weighted()(last), IdIf(Anyone()));
      if last.weight != 0.0 {
        assert [last][..0] == [];
        assert Collect([last], IdIf(Anyone())) == [last.id];
      }
    }
  }

  lemma {:induction false} IdWhereExactly<T>(s: seq<Reading<T>>, p: Reading<T> -> bool, id: string)
    ensures id in IdsWhere(s, p) <==> exists r :: r in s && p(r) && r.id == id
  {
    CollectedExactly(s, IdIf(p), id);
    if i :| 0 <= i < |s| && id in IdIf(p)(s[i]) { assert s[i] in s && p(s[i]) && s[i].id == id; }
    if r :| r in s && p(r) && r.id == id {
      var i :| 0 <= i < |s| && s[i] == r;
      assert id in IdIf(p)(s[i]);
    }
  }

  lemma {:induction false} SortedMembers<T(!new)>(inputs: seq<Reading<T>>, cmp: (T, T) -> int, r: Reading<T>)
    requires Comparator(cmp)
    ensures r in Sort(Contributing(inputs), Order(cmp)) <==> r in inputs && r.weight != 0.0
  {
    OrderIsTotal(cmp);
    SortCorrect(Contributing(inputs), Order(cmp));
    assert r in multiset(Sort(Contributing(inputs), Order(cmp))) <==> r in multiset(Contributing(inputs));
    SelectedExactly(inputs, Weighted(), r);
  }

  /** Some reading with that id has a weight and compares so with the median. */
  ghost predicate OnSide<T(!new)>(inputs: seq<Reading<T>>, cmp: (T, T) -> int, m: T, sign: int, id: string) {
    exists r :: r in inputs && r.id == id && r.weight != 0.0
                && if sign < 0 then cmp(r.value, m) < 0 else if sign > 0 then cmp(r.value, m) > 0 else cmp(r.value, m) == 0
  }

  lemma {:induction false} SideExactly<T(!new)>(inputs: seq<Reading<T>>, cmp: (T, T) -> int, m: T, sign: int, id: string)
    requires Comparator(cmp)
    ensures id in IdsWhere(Sort(Contributing(inputs), Order(cmp)), Compares(cmp, m, sign)) <==> OnSide(inputs, cmp, m, sign, id)
  {
    var sorted, p := Sort(Contributing(inputs), Order(cmp)), Compares(cmp, m, sign);
    IdWhereExactly(sorted, p, id);
    if r :| r in sorted && p(r) && r.id == id {
      SortedMembers(inputs, cmp, r);
      assert OnSide(inputs, cmp, m, sign, id);
    }
    if OnSide(inputs, cmp, m, sign, id) {
      var r :| r in inputs && r.id == id && r.weight != 0.0
               && if sign < 0 then cmp(r.value, m) < 0 else if sign > 0 then cmp(r.value, m) > 0 else cmp(r.value, m) == 0;
      SortedMembers(inputs, cmp, r);
    }
  }

  /** Each list names its side: weighted inputs below the median, at it and above it, and the inputs without weight. */
  lemma {:induction false} IdsBySide<T(!new)>(inputs: seq<Reading<T>>, cmp: (T, T) -> int, m: Median<T>, id: string)
    requires Comparator(cmp) && Compute(inputs, cmp) == Ok(Some(m))
    ensures id in m.belowIds <==> OnSide(inputs, cmp, m.value, -1, id)
    ensures id in m.atIds <==> OnSide(inputs, cmp, m.value, 0, id)
    ensures id in m.aboveIds <==> OnSide(inputs, cmp, m.value, 1, id)
    ensures id in m.excludedIds <==> exists r :: r in inputs && r.id == id && r.weight == 0.0
  {
    SideExactly(inputs, cmp, m.value, -1, id);
    SideExactly(inputs, cmp, m.value, 0, id);
    SideExactly(inputs, cmp, m.value, 1, id);
    SortedTexts(IdsWhere(inputs, Unweighted()));
    assert id in multiset(m.excludedIds) <==> id in multiset(IdsWhere(inputs, Unweighted()));
    IdWhereExactly(inputs, Unweighted(), id);
  }

  /** The integer instance rejects exactly the inputs with a value beyond the safe integers, and else is the median of them. */
  lemma {:induction false} IntegersExactly(inputs: seq<Reading<int>>)
    ensures ComputeIntegers(inputs) == Err(None) <==>
              exists r :: r in inputs && !(-9007199254740992 < r.value < 9007199254740992)
    ensures ComputeIntegers(inputs) != Err(None) ==>
              match Compute(inputs, Difference)
              case Ok(m) => ComputeIntegers(inputs) == Ok(m)
              case Err(fault) => ComputeIntegers(inputs) == Err(Some(fault))
  {
    assert (exists r :: r in inputs && !SafeInteger(r.value)) <==>
           exists r :: r in inputs && !(-9007199254740992 < r.value < 9007199254740992);
  }

  // ---- Order independence ------------------------------------------------------------------------

  lemma {:induction false} UniqueIdsAntisymmetric<T(!new)>(s: seq<Reading<T>>, cmp: (T, T) -> int)
    requires UniqueIds(s) && Comparator(cmp)
    ensures Antisymmetric(s, Order(cmp))
  {
    forall a, b | a in s && b in s && Order(cmp)(a, b) && Order(cmp)(b, a) ensures a == b {
      AtMostIsTotal();
      assert cmp(a.value, b.value) == 0;
      SameKeySameElement(s, IdOf(), a, b);
    }
  }

  /** Permuting the inputs changes nothing: not the value, not the chosen id, not the order of the reported ids. */
  lemma {:induction false} MedianForgetsOrder<T(!new)>(inputs: seq<Reading<T>>, other: seq<Reading<T>>, cmp: (T, T) -> int)
    requires Comparator(cmp) && multiset(inputs) == multiset(other)
    ensures Compute(inputs, cmp).Ok? <==> Compute(other, cmp).Ok?
    ensures Compute(inputs, cmp).Ok? ==> Compute(inputs, cmp) == Compute(other, cmp)
  {
    FaultlessExactly(inputs);
    FaultlessExactly(other);
    if Sound(other) { SoundForgetsOrder(other, inputs); }
    if Sound(inputs) {
      SoundForgetsOrder(inputs, other);
      CollectForgetsOrder(inputs, other, Weighted());
      assert |multiset(Contributing(inputs))| == |multiset(Contributing(other))|;
      SelectionDistinct(inputs, Weighted(), IdOf());
      UniqueIdsAntisymmetric(Contributing(inputs), cmp);
      OrderIsTotal(cmp);
      SortForgetsOrder(Contributing(inputs), Contributing(other), Order(cmp));
      ExcludedForgetOrder(inputs, other);
    }
  }

  lemma {:induction false} ExcludedForgetOrder<T>(s: seq<Reading<T>>, t: seq<Reading<T>>)
    requires multiset(s) == multiset(t)
    ensures Sort(IdsWhere(s, Unweighted()), ByText()) == Sort(IdsWhere(t, Unweighted()), ByText())
  {
    CollectForgetsOrder(s, t, IdIf(Unweighted()));
    AtMostIsTotal();
    assert TotalPreorder(ByText());
    SortForgetsOrder(IdsWhere(s, Unweighted()), IdsWhere(t, Unweighted()), ByText());
  }

  lemma {:induction false} SoundForgetsOrder<T>(s: seq<Reading<T>>, t: seq<Reading<T>>)
    requires multiset(s) == multiset(t) && Sound(s)
    ensures Sound(t)
  {
    DistinctForgetsOrder(s, t, IdOf());
    forall r | r in t ensures r in s { assert r in multiset(t); }
  }
}
