/** Sequences whose elements have distinct keys, as the repository checks with a `Set` of keys already seen. */
module Keys {
  import opened Sorting
  import opened TextOrder
  import opened Totals

  predicate DistinctBy<T, K(==)>(s: seq<T>, key: T -> K) {
    forall i, j | 0 <= i < j < |s| :: key(s[i]) != key(s[j])
  }

  function KeysOf<T, K(==)>(s: seq<T>, key: T -> K): set<K> { set i | 0 <= i < |s| :: key(s[i]) }

  lemma {:induction false} KeysGrow<T, K>(s: seq<T>, n: nat, key: T -> K)
    requires n < |s|
    ensures KeysOf(s[..n + 1], key) == KeysOf(s[..n], key) + {key(s[n])}
  {
    var fewer, more := s[..n], s[..n + 1];
    assert forall i | 0 <= i < n :: key(more[i]) == key(fewer[i]);
    assert key(more[n]) == key(s[n]);
  }

  /** A loop that collects the keys seen so far finds a repeated one exactly when the keys are not distinct. */
  method CheckDistinct<T, K(==)>(s: seq<T>, key: T -> K) returns (distinct: bool)
    ensures distinct <==> DistinctBy(s, key)
  {
    var seen: set<K> := {};
    for n := 0 to |s|
      invariant seen == KeysOf(s[..n], key) && DistinctBy(s[..n], key)
    {
      if key(s[n]) in seen { return false; }
      KeysGrow(s, n, key);
      seen := seen + {key(s[n])};
    }
    assert s[..|s|] == s;
    distinct := true;
  }

  lemma {:induction false} DistinctCount<T, K>(s: seq<T>, key: T -> K)
    requires DistinctBy(s, key)
    ensures |KeysOf(s, key)| == |s|
  {
    if s != [] {
      var n := |s| - 1;
      DistinctCount(s[..n], key);
      KeysGrow(s, n, key);
      assert s[..n + 1] == s;
    }
  }

  lemma {:induction false} SameKeySameElement<T, K>(s: seq<T>, key: T -> K, a: T, b: T)
    requires DistinctBy(s, key) && a in s && b in s && key(a) == key(b)
    ensures a == b
  {
    var i :| 0 <= i < |s| && s[i] == a;
    var j :| 0 <= j < |s| && s[j] == b;
    assert !(i < j) && !(j < i);
  }

  lemma {:induction false} DistinctForgetsOrder<T, K>(s: seq<T>, t: seq<T>, key: T -> K)
    requires multiset(s) == multiset(t) && DistinctBy(s, key)
    ensures DistinctBy(t, key)
  {
    forall i, j | 0 <= i < j < |t| ensures key(t[i]) != key(t[j]) {
      assert t[i] in multiset(s) && t[j] in multiset(s);
      if key(t[i]) == key(t[j]) {
        SameKeySameElement(s, key, t[i], t[j]);
        TwiceInMultiset(t, i, j);
        OnceInMultiset(s, key, t[i]);
        assert false;
      }
    }
  }

  lemma {:induction false} TwiceInMultiset<T>(t: seq<T>, i: nat, j: nat)
    requires i < j < |t| && t[i] == t[j]
    ensures multiset(t)[t[i]] >= 2
  {
    assert t == t[..j] + ([t[j]] + t[j + 1..]);
    assert t[i] in t[..j];
  }

  lemma {:induction false} OnceInMultiset<T, K>(s: seq<T>, key: T -> K, x: T)
    requires DistinctBy(s, key)
    ensures multiset(s)[x] <= 1
  {
    if s != [] {
      var prefix, last := s[..|s| - 1], s[|s| - 1];
      assert s == prefix + [last];
      OnceInMultiset(prefix, key, x);
      forall i | 0 <= i < |prefix| ensures prefix[i] != last { assert key(s[i]) != key(s[|s| - 1]); }
      assert last !in prefix;
    }
  }

  /** A selection of elements: `keep` picks an element itself or nothing. */
  ghost predicate Selects<T>(s: seq<T>, keep: T -> seq<T>) { forall x | x in s :: keep(x) == [] || keep(x) == [x] }

  lemma {:induction false} SelectedExactly<T>(s: seq<T>, keep: T -> seq<T>, x: T)
    requires Selects(s, keep)
    ensures x in Collect(s, keep) <==> x in s && keep(x) != []
  {
    CollectedExactly(s, keep, x);
    if x in s && keep(x) != [] {
      var i :| 0 <= i < |s| && s[i] == x;
      assert x in keep(s[i]);
    }
  }

  lemma {:induction false} SelectionShorter<T>(s: seq<T>, keep: T -> seq<T>)
    requires Selects(s, keep)
    ensures |Collect(s, keep)| <= |s|
  {
    if s != [] {
      assert s[|s| - 1] in s;
      SelectionShorter(s[..|s| - 1], keep);
    }
  }

  lemma {:induction false} SelectionDistinct<T, K>(s: seq<T>, keep: T -> seq<T>, key: T -> K)
    requires Selects(s, keep) && DistinctBy(s, key)
    ensures DistinctBy(Collect(s, keep), key)
  {
    if s != [] {
      var prefix, last := s[..|s| - 1], s[|s| - 1];
      assert s == prefix + [last];
      SelectionDistinct(prefix, keep, key);
      var picked := Collect(prefix, keep);
      forall i | 0 <= i < |picked| ensures key(picked[i]) != key(last) {
        assert picked[i] in picked;
        SelectedExactly(prefix, keep, picked[i]);
        var k :| 0 <= k < |prefix| && prefix[k] == picked[i];
        assert key(s[k]) != key(s[|s| - 1]);
      }
    }
  }

  // ---- Sorting by a key --------------------------------------------------------------------------

  function ByKey<T>(key: T -> string): (T, T) -> bool { (a: T, b: T) => AtMost(key(a), key(b)) }

  lemma {:induction false} ByKeyIsTotal<T(!new)>(key: T -> string)
    ensures TotalPreorder(ByKey(key))
  {
    AtMostIsTotal();
  }

  lemma {:induction false} ByKeyForgetsOrder<T(!new)>(s: seq<T>, t: seq<T>, key: T -> string)
    requires multiset(s) == multiset(t) && DistinctBy(s, key)
    ensures Sort(s, ByKey(key)) == Sort(t, ByKey(key))
  {
    forall a, b | a in s && b in s && ByKey(key)(a, b) && ByKey(key)(b, a) ensures a == b {
      AtMostIsTotal();
      SameKeySameElement(s, key, a, b);
    }
    ByKeyIsTotal(key);
    SortForgetsOrder(s, t, ByKey(key));
  }

  lemma {:induction false} SortedByKey<T(!new)>(s: seq<T>, key: T -> string)
    ensures SortedBy(Sort(s, ByKey(key)), ByKey(key)) && multiset(Sort(s, ByKey(key))) == multiset(s)
    ensures |Sort(s, ByKey(key))| == |s| && forall x :: x in Sort(s, ByKey(key)) <==> x in s
    ensures DistinctBy(s, key) ==> DistinctBy(Sort(s, ByKey(key)), key)
  {
    ByKeyIsTotal(key);
    SortCorrect(s, ByKey(key));
    forall x ensures x in Sort(s, ByKey(key)) <==> x in s {
      assert x in multiset(s) <==> x in s;
      assert x in multiset(Sort(s, ByKey(key))) <==> x in Sort(s, ByKey(key));
    }
    if DistinctBy(s, key) { DistinctForgetsOrder(s, Sort(s, ByKey(key)), key); }
  }
}
