/** Sums and selections over sequences. Weights are reals: the rounding of floating-point addition is not modelled. */
module Totals {

  // ---- Selections --------------------------------------------------------------------------------

  /** What `f` picks from each element, in order: the repository's filter, map and flatMap. */
  function Collect<T, U>(s: seq<T>, f: T -> seq<U>): seq<U> {
    if s == [] then [] else Collect(s[..|s| - 1], f) + f(s[|s| - 1])
  }

  lemma {:induction false} CollectConcat<T, U>(s: seq<T>, t: seq<T>, f: T -> seq<U>)
    ensures Collect(s + t, f) == Collect(s, f) + Collect(t, f)
  {
    if t == [] {
      assert s + t == s;
    } else {
      CollectConcat(s, t[..|t| - 1], f);
      assert (s + t)[..|s + t| - 1] == s + t[..|t| - 1];
    }
  }

  lemma {:induction false} CollectTakeOutParts<T, U>(a: seq<T>, x: T, b: seq<T>, f: T -> seq<U>)
    ensures multiset(Collect(a + ([x] + b), f)) == multiset(Collect(a + b, f)) + multiset(f(x))
  {
    CollectConcat(a, [x] + b, f);
    CollectConcat([x], b, f);
    CollectConcat(a, b, f);
    assert [x][..0] == [];
    assert Collect([x], f) == f(x);
  }

  lemma {:induction false} CollectTakeOut<T, U>(s: seq<T>, k: nat, f: T -> seq<U>)
    requires k < |s|
    ensures multiset(Collect(s, f)) == multiset(Collect(s[..k] + s[k + 1..], f)) + multiset(f(s[k]))
    ensures multiset(s[..k] + s[k + 1..]) == multiset(s) - multiset{s[k]}
  {
    assert s == s[..k] + ([s[k]] + s[k + 1..]);
    CollectTakeOutParts(s[..k], s[k], s[k + 1..], f);
  }

  lemma {:induction false} CollectForgetsOrder<T, U>(s: seq<T>, t: seq<T>, f: T -> seq<U>)
    requires multiset(s) == multiset(t)
    ensures multiset(Collect(s, f)) == multiset(Collect(t, f))
  {
    if s == [] {
      assert |multiset(t)| == |t|;
    } else {
      var n := |s| - 1;
      assert s[n] in multiset(t);
      var k :| 0 <= k < |t| && t[k] == s[n];
      CollectTakeOut(s, n, f);
      CollectTakeOut(t, k, f);
      CollectForgetsOrder(s[..n] + s[n + 1..], t[..k] + t[k + 1..], f);
    }
  }

  /** An element is collected exactly when `f` picks it from some element. */
  lemma {:induction false} CollectedExactly<T, U>(s: seq<T>, f: T -> seq<U>, y: U)
    ensures y in Collect(s, f) <==> exists i :: 0 <= i < |s| && y in f(s[i])
  {
    if s != [] {
      var prefix := s[..|s| - 1];
      CollectedExactly(prefix, f, y);
      if y in Collect(prefix, f) {
        var i :| 0 <= i < |prefix| && y in f(prefix[i]);
        assert y in f(s[i]);
      }
      if i :| 0 <= i < |s| && y in f(s[i]) {
        assert i < |s| - 1 ==> y in f(prefix[i]);
      }
    }
  }

  /** A selection of one item per element is a map. */
  lemma {:induction false} CollectMap<T, U>(s: seq<T>, f: T -> seq<U>)
    requires forall x | x in s :: |f(x)| == 1
    ensures |Collect(s, f)| == |s| && forall i | 0 <= i < |s| :: Collect(s, f)[i] == f(s[i])[0]
  {
    if s != [] {
      CollectMap(s[..|s| - 1], f);
      assert s[|s| - 1] in s;
    }
  }

  /** Two selections that share out a third between them do so over the whole sequence. */
  lemma {:induction false} CollectShares<T, U>(s: seq<T>, f: T -> seq<U>, g: T -> seq<U>, h: T -> seq<U>)
    requires forall x | x in s :: multiset(f(x)) + multiset(g(x)) == multiset(h(x))
    ensures multiset(Collect(s, f)) + multiset(Collect(s, g)) == multiset(Collect(s, h))
  {
    if s != [] { CollectShares(s[..|s| - 1], f, g, h); }
  }

  // ---- Sums --------------------------------------------------------------------------------------

  function Sum<T>(s: seq<T>, f: T -> real): real {
    if s == [] then 0.0 else Sum(s[..|s| - 1], f) + f(s[|s| - 1])
  }

  lemma {:induction false} SumConcat<T>(s: seq<T>, t: seq<T>, f: T -> real)
    ensures Sum(s + t, f) == Sum(s, f) + Sum(t, f)
  {
    if t == [] {
      assert s + t == s;
    } else {
      SumConcat(s, t[..|t| - 1], f);
      assert (s + t)[..|s + t| - 1] == s + t[..|t| - 1];
    }
  }

  lemma {:induction false} TakeOutSum<T>(a: seq<T>, x: T, b: seq<T>, f: T -> real)
    ensures Sum(a + ([x] + b), f) == Sum(a + b, f) + f(x)
  {
    SumConcat(a, [x] + b, f);
    SumConcat([x], b, f);
    SumConcat(a, b, f);
    assert [x][..0] == [];
    assert Sum([x], f) == f(x);
  }

  lemma {:induction false} TakeOut<T>(s: seq<T>, k: nat, f: T -> real)
    requires k < |s|
    ensures Sum(s, f) == Sum(s[..k] + s[k + 1..], f) + f(s[k])
    ensures multiset(s[..k] + s[k + 1..]) == multiset(s) - multiset{s[k]}
  {
    assert s == s[..k] + ([s[k]] + s[k + 1..]);
    TakeOutSum(s[..k], s[k], s[k + 1..], f);
  }

  lemma {:induction false} SumForgetsOrder<T>(s: seq<T>, t: seq<T>, f: T -> real)
    requires multiset(s) == multiset(t)
    ensures Sum(s, f) == Sum(t, f)
  {
    if s == [] {
      assert |multiset(t)| == |t|;
    } else {
      var n := |s| - 1;
      assert s[n] in multiset(t);
      var k :| 0 <= k < |t| && t[k] == s[n];
      TakeOut(s, n, f);
      TakeOut(t, k, f);
      SumForgetsOrder(s[..n] + s[n + 1..], t[..k] + t[k + 1..], f);
    }
  }

  lemma {:induction false} SumAtMost<T>(s: seq<T>, f: T -> real, g: T -> real)
    requires forall x | x in s :: f(x) <= g(x)
    ensures Sum(s, f) <= Sum(s, g)
  {
    if s != [] { SumAtMost(s[..|s| - 1], f, g); }
  }

  lemma {:induction false} SumNonpositive<T>(s: seq<T>, f: T -> real)
    requires forall x | x in s :: f(x) <= 0.0
    ensures Sum(s, f) <= 0.0
  {
    if s != [] { SumNonpositive(s[..|s| - 1], f); }
  }

  lemma {:induction false} SumPositive<T>(s: seq<T>, f: T -> real)
    requires forall x | x in s :: f(x) > 0.0
    ensures Sum(s, f) >= 0.0 && (s != [] ==> Sum(s, f) > 0.0)
  {
    if s != [] { SumPositive(s[..|s| - 1], f); }
  }

  /** A sum of `h` that is, term by term, `f` less `c` times `g`. */
  lemma {:induction false} SumLinear<T>(s: seq<T>, f: T -> real, c: real, g: T -> real, h: T -> real)
    requires forall x | x in s :: h(x) >= f(x) + c * g(x)
    ensures Sum(s, h) >= Sum(s, f) + c * Sum(s, g)
  {
    if s != [] { SumLinear(s[..|s| - 1], f, c, g, h); }
  }
}
