/** The deterministic lower weighted median, computed without arithmetic on values. */
module WeightedMedian {
  import opened Outcomes
  import opened Sorting
  import opened TextOrder
  import opened Totals

  datatype Reading<+T> = Reading(id: string, value: T, weight: real)

  datatype Median<+T> = Median(
    value: T,
    selectedId: string,
    totalWeight: real,
    belowIds: seq<string>,
    atIds: seq<string>,
    aboveIds: seq<string>,
    excludedIds: seq<string>
  )

  datatype Fault = EmptyId | DuplicateId(id: string) | NegativeWeight(id: string)

  /** A comparison whose sign orders the values; different values may tie. */
  ghost predicate Comparator<T(!new)>(cmp: (T, T) -> int) {
    && (forall a, b :: cmp(a, b) < 0 <==> cmp(b, a) > 0)
    && (forall a, b, c :: cmp(a, b) <= 0 && cmp(b, c) <= 0 ==> cmp(a, c) <= 0)
  }

  // ---- Specification -----------------------------------------------------------------------------

  predicate HasId<T>(s: seq<Reading<T>>, id: string) { exists i :: 0 <= i < |s| && s[i].id == id }

  function FaultOf<T>(earlier: seq<Reading<T>>, r: Reading<T>): Option<Fault> {
    if r.id == "" then Some(EmptyId)
    else if HasId(earlier, r.id) then Some(DuplicateId(r.id))
    else if r.weight < 0.0 then Some(NegativeWeight(r.id))
    else None
  }

  /** The fault of the first reading that has one. */
  function FirstFault<T>(s: seq<Reading<T>>): Option<Fault> {
    if s == [] then None
    else if FirstFault(s[..|s| - 1]).Some? then FirstFault(s[..|s| - 1])
    else FaultOf(s[..|s| - 1], s[|s| - 1])
  }

  function Weighted<T>(): Reading<T> -> seq<Reading<T>> {
    (r: Reading<T>) => if r.weight == 0.0 then [] else [r]
  }

  function IdIf<T>(p: Reading<T> -> bool): Reading<T> -> seq<string> {
    (r: Reading<T>) => if p(r) then [r.id] else []
  }

  function Contributing<T>(s: seq<Reading<T>>): seq<Reading<T>> { Collect(s, Weighted()) }

  function IdsWhere<T>(s: seq<Reading<T>>, p: Reading<T> -> bool): seq<string> { Collect(s, IdIf(p)) }

  predicate InOrder<T>(cmp: (T, T) -> int, left: Reading<T>, right: Reading<T>) {
    if cmp(left.value, right.value) == 0 then AtMost(left.id, right.id) else cmp(left.value, right.value) < 0
  }

  /** By value, then by id. */
  function Order<T>(cmp: (T, T) -> int): (Reading<T>, Reading<T>) -> bool { (a: Reading<T>, b: Reading<T>) => InOrder(cmp, a, b) }

  function ByText(): (string, string) -> bool { (a: string, b: string) => AtMost(a, b) }

  function Weight<T>(): Reading<T> -> real { (r: Reading<T>) => r.weight }

  function WeightBelow<T>(cmp: (T, T) -> int, m: T): Reading<T> -> real {
    (r: Reading<T>) => if cmp(r.value, m) < 0 then r.weight else 0.0
  }

  function WeightAbove<T>(cmp: (T, T) -> int, m: T): Reading<T> -> real {
    (r: Reading<T>) => if cmp(r.value, m) > 0 then r.weight else 0.0
  }

  function Unweighted<T>(): Reading<T> -> bool { (r: Reading<T>) => r.weight == 0.0 }

  function Compares<T>(cmp: (T, T) -> int, m: T, sign: int): Reading<T> -> bool {
    (r: Reading<T>) => if sign < 0 then cmp(r.value, m) < 0 else if sign > 0 then cmp(r.value, m) > 0 else cmp(r.value, m) == 0
  }

  /** The first position at which the running weight reaches `half`, the last position if none does. */
  function Crossing<T>(sorted: seq<Reading<T>>, i: nat, below: real, half: real): (k: nat)
    requires i < |sorted|
    ensures i <= k < |sorted|
    decreases |sorted| - i
  {
    if i == |sorted| - 1 || below + sorted[i].weight >= half then i
    else Crossing(sorted, i + 1, below + sorted[i].weight, half)
  }

  function MedianOf<T>(sorted: seq<Reading<T>>, excluded: seq<string>, cmp: (T, T) -> int): Median<T>
    requires sorted != []
  {
    var total := Sum(sorted, Weight());
    var chosen := sorted[Crossing(sorted, 0, 0.0, total / 2.0)];
    Median(chosen.value, chosen.id, total,
           IdsWhere(sorted, Compares(cmp, chosen.value, -1)),
           IdsWhere(sorted, Compares(cmp, chosen.value, 0)),
           IdsWhere(sorted, Compares(cmp, chosen.value, 1)),
           excluded)
  }

  function Compute<T>(inputs: seq<Reading<T>>, cmp: (T, T) -> int): Result<Option<Median<T>>, Fault> {
    if FirstFault(inputs).Some? then Err(FirstFault(inputs).value)
    else if Contributing(inputs) == [] then Ok(None)
    else Ok(Some(MedianOf(Sort(Contributing(inputs), Order(cmp)), Sort(IdsWhere(inputs, Unweighted()), ByText()), cmp)))
  }

  const SAFE_INTEGER_MAX: int := 9007199254740991

  predicate SafeInteger(x: int) { -SAFE_INTEGER_MAX <= x <= SAFE_INTEGER_MAX }

  function Difference(a: int, b: int): int { a - b }

  /** The integer instance: values must be safe integers, none for the fault says one was not. */
  function ComputeIntegers(inputs: seq<Reading<int>>): Result<Option<Median<int>>, Option<Fault>> {
    if exists r :: r in inputs && !SafeInteger(r.value) then Err(None)
    else
      match Compute(inputs, Difference)
      case Ok(m) => Ok(m)
      case Err(fault) => Err(Some(fault))
  }

  // ---- The algorithm -----------------------------------------------------------------------------

  method Screen<T>(inputs: seq<Reading<T>>) returns (fault: Option<Fault>, contributing: seq<Reading<T>>, excluded: seq<string>)
    ensures fault == FirstFault(inputs)
    ensures fault.None? ==> contributing == Contributing(inputs) && excluded == IdsWhere(inputs, Unweighted())
  {
    var seenIds: set<string> := {};
    contributing, excluded := [], [];
    assert inputs[..0] == [];
    for i := 0 to |inputs|
      invariant forall id :: id in seenIds <==> HasId(inputs[..i], id)
      invariant FirstFault(inputs[..i]) == None
      invariant contributing == Contributing(inputs[..i])
      invariant excluded == IdsWhere(inputs[..i], Unweighted())
    {
      var input := inputs[i];
      assert inputs[..i + 1][..i] == inputs[..i];
      HasIdStep(inputs, i);
      fault := if input.id == "" then Some(EmptyId)
               else if input.id in seenIds then Some(DuplicateId(input.id))
               else if input.weight < 0.0 then Some(NegativeWeight(input.id))
               else None;
      if fault.Some? {
        FaultStays(inputs, i + 1);
        return;
      }
      seenIds := seenIds + {input.id};
      if input.weight == 0.0 { excluded := excluded + [input.id]; } else { contributing := contributing + [input]; }
    }
    assert inputs[..|inputs|] == inputs;
    fault := None;
  }

  method Select<T>(sorted: seq<Reading<T>>) returns (k: nat, total: real)
    requires sorted != []
    ensures total == Sum(sorted, Weight()) && k == Crossing(sorted, 0, 0.0, total / 2.0)
  {
    total := 0.0;
    for i := 0 to |sorted|
      invariant total == Sum(sorted[..i], Weight())
    {
      assert sorted[..i + 1][..i] == sorted[..i];
      total := total + sorted[i].weight;
    }
    assert sorted[..|sorted|] == sorted;
    var cumulative := 0.0;
    k := |sorted| - 1;
    for i := 0 to |sorted|
      invariant k == |sorted| - 1
      invariant i < |sorted| ==> Crossing(sorted, i, cumulative, total / 2.0) == Crossing(sorted, 0, 0.0, total / 2.0)
      invariant i == |sorted| ==> Crossing(sorted, 0, 0.0, total / 2.0) == |sorted| - 1
    {
      if cumulative + sorted[i].weight >= total / 2.0 {
        k := i;
        break;
      }
      cumulative := cumulative + sorted[i].weight;
    }
  }

  method Split<T>(sorted: seq<Reading<T>>, cmp: (T, T) -> int, m: T) returns (below: seq<string>, at: seq<string>, above: seq<string>)
    ensures below == IdsWhere(sorted, Compares(cmp, m, -1))
    ensures at == IdsWhere(sorted, Compares(cmp, m, 0))
    ensures above == IdsWhere(sorted, Compares(cmp, m, 1))
  {
    below, at, above := [], [], [];
    for i := 0 to |sorted|
      invariant below == IdsWhere(sorted[..i], Compares(cmp, m, -1))
      invariant at == IdsWhere(sorted[..i], Compares(cmp, m, 0))
      invariant above == IdsWhere(sorted[..i], Compares(cmp, m, 1))
    {
      assert sorted[..i + 1][..i] == sorted[..i];
      var comparison := cmp(sorted[i].value, m);
      if comparison < 0 {
        below := below + [sorted[i].id];
      } else if comparison > 0 {
        above := above + [sorted[i].id];
      } else {
        at := at + [sorted[i].id];
      }
    }
    assert sorted[..|sorted|] == sorted;
  }

  method ComputeWeightedMedian<T>(inputs: seq<Reading<T>>, cmp: (T, T) -> int)
    returns (r: Result<Option<Median<T>>, Fault>)
    ensures r == Compute(inputs, cmp)
  {
    var fault, contributing, excluded := Screen(inputs);
    if fault.Some? { return Err(fault.value); }
    if contributing == [] { return Ok(None); }
    var sorted := Sort(contributing, Order(cmp));
    var k, total := Select(sorted);
    var below, at, above := Split(sorted, cmp, sorted[k].value);
    r := Ok(Some(Median(sorted[k].value, sorted[k].id, total, below, at, above, Sort(excluded, ByText()))));
  }

  method ComputeSafeIntegerWeightedMedian(inputs: seq<Reading<int>>) returns (r: Result<Option<Median<int>>, Option<Fault>>)
    ensures r == ComputeIntegers(inputs)
  {
    for i := 0 to |inputs|
      invariant forall x | x in inputs[..i] :: SafeInteger(x.value)
    {
      if !SafeInteger(inputs[i].value) {
        assert inputs[i] in inputs;
        return Err(None);
      }
      assert inputs[..i + 1] == inputs[..i] + [inputs[i]];
    }
    assert inputs[..|inputs|] == inputs;
    var median := ComputeWeightedMedian(inputs, Difference);
    r := match median case Ok(m) => Ok(m) case Err(fault) => Err(Some(fault));
  }

  lemma {:induction false} HasIdStep<T>(s: seq<Reading<T>>, i: nat)
    requires i < |s|
    ensures forall id :: HasId(s[..i + 1], id) <==> HasId(s[..i], id) || id == s[i].id
  {
    forall id | HasId(s[..i], id) ensures HasId(s[..i + 1], id) {
      var k :| 0 <= k < i && s[..i][k].id == id;
      assert s[..i + 1][k].id == id;
    }
    assert s[..i + 1][i].id == s[i].id;
    forall id | HasId(s[..i + 1], id) && id != s[i].id ensures HasId(s[..i], id) {
      var k :| 0 <= k <= i && s[..i + 1][k].id == id;
      assert s[..i][k].id == id;
    }
  }

  lemma {:induction false} FaultStays<T>(s: seq<Reading<T>>, n: nat)
    requires n <= |s| && FirstFault(s[..n]).Some?
    ensures FirstFault(s) == FirstFault(s[..n])
    decreases |s| - n
  {
    if n == |s| {
      assert s[..n] == s;
    } else {
      assert s[..n + 1][..n] == s[..n];
      FaultStays(s, n + 1);
    }
  }

  lemma {:induction false} OrderIsTotal<T(!new)>(cmp: (T, T) -> int)
    requires Comparator(cmp)
    ensures TotalPreorder(Order(cmp))
  {
    var le := Order(cmp);
    forall a, b ensures le(a, b) || le(b, a) {
      Trichotomy(a.id, b.id);
    }
    forall a, b, c | le(a, b) && le(b, c) ensures le(a, c) {
      OrderTransitive(cmp, a, b, c);
    }
  }

  lemma {:induction false} OrderTransitive<T(!new)>(cmp: (T, T) -> int, a: Reading<T>, b: Reading<T>, c: Reading<T>)
    requires Comparator(cmp) && InOrder(cmp, a, b) && InOrder(cmp, b, c)
    ensures InOrder(cmp, a, c)
  {
    if cmp(a.value, c.value) == 0 {
      assert cmp(c.value, a.value) == 0 && cmp(c.value, b.value) <= 0 && cmp(b.value, a.value) <= 0;
      AtMostIsTotal();
    }
  }
}
