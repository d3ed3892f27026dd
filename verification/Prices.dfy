/**
 * Exact prices: a ratio reduced to lowest terms, and its decimal text. Three places of the repository write a ratio in
 * decimals: the price itself (`Format`), the metric value schema (`RationalText`) and the depth observation schema
 * (`ExpectedDecimal`).
 */
module Prices {
  import opened Outcomes
  import opened Decimals

  // ---- Rounding ----------------------------------------------------------------------------------

  /** Half up, on integers. */
  function Rounded(n: nat, d: nat, scale: nat): nat
    requires d > 0
  {
    var scaled := n * scale;
    if scaled % d * 2 >= d then scaled / d + 1 else scaled / d
  }

  function Whole(rounded: nat, scale: nat): nat
    requires scale > 0
  {
    rounded / scale
  }

  function Rest(rounded: nat, scale: nat): nat
    requires scale > 0
  {
    rounded % scale
  }

  /** The text of an integer count of last places; without decimals just the integer. */
  function Text(rounded: nat, decimals: nat): string {
    if decimals == 0 then Print(rounded)
    else Print(Whole(rounded, Power(decimals))) + "." + Pad(Print(Rest(rounded, Power(decimals))), decimals)
  }

  function Format(n: nat, d: nat, decimals: nat): string
    requires d > 0
  {
    Text(Rounded(n, d, Power(decimals)), decimals)
  }

  /** Rounding error between minus one half (excluded) and plus one half: `r` is `n / d` in units of `1 / scale`. */
  predicate Nearest(n: nat, d: nat, scale: nat, r: int) { 0 - d < 2 * (r * d - n * scale) <= d }

  lemma {:induction false} RoundedIsNearest(n: nat, d: nat, scale: nat)
    requires d > 0
    ensures Nearest(n, d, scale, Rounded(n, d, scale))
  {
    var scaled := n * scale;
    var q, m := scaled / d, scaled % d;
    assert scaled == q * d + m;
    assert (q + 1) * d == q * d + d;
  }

  /** Only one integer is within that half of a unit. */
  lemma {:induction false} NearestUnique(n: nat, d: nat, scale: nat, r: int, t: int)
    requires d > 0 && Nearest(n, d, scale, r) && Nearest(n, d, scale, t)
    ensures r == t
  {
    assert r * d - t * d == (r - t) * d && t * d - r * d == (t - r) * d;
    CancelFactor(d, r - t, 1);
    CancelFactor(d, t - r, 1);
  }

  /** The decimal text depends on the ratio only, not on the terms it is written with. */
  lemma {:induction false} ScaleInvariant(n: nat, d: nat, k: nat, decimals: nat)
    requires d > 0 && k > 0
    ensures k * d > 0 && Format(k * n, k * d, decimals) == Format(n, d, decimals)
  {
    var scale := Power(decimals);
    MulMono(1, k, d);
    var r := Rounded(k * n, k * d, scale);
    RoundedIsNearest(k * n, k * d, scale);
    NearestScaled(n, d, k, scale, r);
    RoundedIsNearest(n, d, scale);
    NearestUnique(n, d, scale, r, Rounded(n, d, scale));
  }

  lemma {:induction false} MulMono(a: int, b: int, k: int)
    requires a <= b && k >= 0
    ensures a * k <= b * k
  {
    assert (b - a) * k >= 0;
  }

  lemma {:induction false} CancelFactor(k: int, a: int, b: int)
    requires k > 0 && a * k < b * k
    ensures a < b
  {
    if b <= a {
      MulMono(b, a, k);
      assert false;
    }
  }

  lemma {:induction false} NearestScaled(n: nat, d: nat, k: nat, scale: nat, r: int)
    requires d > 0 && k > 0 && Nearest(k * n, k * d, scale, r)
    ensures Nearest(n, d, scale, r)
  {
    var gap := r * d - n * scale;
    assert 2 * (r * (k * d) - k * n * scale) == 2 * gap * k;
    assert k * d == d * k && 0 - k * d == (0 - d) * k;
    CancelFactor(k, 0 - d, 2 * gap);
    assert 2 * gap * k < (d + 1) * k;
    CancelFactor(k, 2 * gap, d + 1);
  }

  // ---- The text ----------------------------------------------------------------------------------

  /** The text of a decimal number with `decimals` places, read as an integer of its last place. */
  function ReadDecimal(text: string, decimals: nat): Option<nat> {
    if |text| <= decimals || decimals == 0 then None
    else
      var point := |text| - decimals - 1;
      if text[point] == '.' && Canonical(text[..point]) && AllDigits(text[point + 1..])
      then Some(Read(text[..point]) * Power(decimals) + Read(text[point + 1..])) else None
  }

  lemma {:induction false} TextParsesBack(rounded: nat, decimals: nat)
    requires decimals > 0
    ensures ReadDecimal(Text(rounded, decimals), decimals) == Some(rounded)
  {
    var whole, rest := Whole(rounded, Power(decimals)), Rest(rounded, Power(decimals));
    WholeAndRest(rounded, Power(decimals));
    PrintReads(whole);
    PrintReads(rest);
    PrintLength(rest, decimals);
    PadReads(Print(rest), decimals);
    SplitAtPoint(Print(whole), Pad(Print(rest), decimals), decimals);
  }

  lemma {:induction false} WholeAndRest(rounded: nat, scale: nat)
    requires scale > 0
    ensures rounded == Whole(rounded, scale) * scale + Rest(rounded, scale) && Rest(rounded, scale) < scale
  {}

  lemma {:induction false} SplitAtPoint(whole: string, fraction: string, decimals: nat)
    requires |fraction| == decimals > 0 && Canonical(whole) && AllDigits(fraction)
    ensures ReadDecimal(whole + "." + fraction, decimals) == Some(Read(whole) * Power(decimals) + Read(fraction))
  {
    var text := whole + "." + fraction;
    assert text[..|whole|] == whole && text[|whole|] == '.' && text[|whole| + 1..] == fraction;
  }

  /** The text has the canonical form the schemas demand and parses back to the rounded integer, padding included. */
  lemma {:induction false} FormatParsesBack(n: nat, d: nat, decimals: nat)
    requires d > 0 && decimals > 0
    ensures ReadDecimal(Format(n, d, decimals), decimals) == Some(Rounded(n, d, Power(decimals)))
  {
    TextParsesBack(Rounded(n, d, Power(decimals)), decimals);
  }

  // ---- Greatest common divisor -------------------------------------------------------------------

  function Gcd(a: nat, b: nat): nat
    decreases b
  {
    if b == 0 then a else Gcd(b, a % b)
  }

  method GreatestCommonDivisor(left: int, right: int) returns (g: nat)
    ensures g == Gcd(if left < 0 then -left else left, if right < 0 then -right else right)
  {
    var a := if left < 0 then -left else left;
    var b := if right < 0 then -right else right;
    ghost var a0, b0 := a, b;
    while b != 0
      invariant a >= 0 && b >= 0 && Gcd(a, b) == Gcd(a0, b0)
      decreases b
    {
      a, b := b, a % b;
    }
    g := a;
  }

  ghost predicate Divides(d: int, x: int) { exists q: int :: x == q * d }

  lemma {:induction false} GcdDivides(a: nat, b: nat)
    ensures Divides(Gcd(a, b), a) && Divides(Gcd(a, b), b)
    ensures a > 0 || b > 0 ==> Gcd(a, b) > 0
    decreases b
  {
    if b == 0 {
      assert a == 1 * a && 0 == 0 * a;
    } else {
      GcdDivides(b, a % b);
      var g := Gcd(b, a % b);
      var p: int :| b == p * g;
      var q: int :| a % b == q * g;
      assert a == a / b * b + a % b;
      assert a / b * (p * g) == (a / b * p) * g;
      assert (a / b * p) * g + q * g == (a / b * p + q) * g;
      assert a == (a / b * p + q) * g;
    }
  }

  /** Coefficients that combine the two numbers to their greatest common divisor. */
  lemma {:induction false} Bezout(a: nat, b: nat) returns (x: int, y: int)
    ensures x * a + y * b == Gcd(a, b)
    decreases b
  {
    if b == 0 {
      x, y := 1, 0;
    } else {
      var u, v := Bezout(b, a % b);
      x, y := v, u - v * (a / b);
      assert a % b == a - a / b * b;
      assert v * (a - a / b * b) == v * a - v * (a / b) * b;
      assert (u - v * (a / b)) * b == u * b - v * (a / b) * b;
    }
  }

  /** Any common divisor divides the greatest one. */
  lemma {:induction false} GcdIsGreatest(a: nat, b: nat, d: int)
    requires Divides(d, a) && Divides(d, b)
    ensures Divides(d, Gcd(a, b))
  {
    var x, y := Bezout(a, b);
    var p: int :| a == p * d;
    var q: int :| b == q * d;
    assert x * (p * d) + y * (q * d) == (x * p + y * q) * d;
  }

  // ---- Prices ------------------------------------------------------------------------------------

  datatype Price = Price(numerator: nat, denominator: nat)

  predicate LowestTerms(p: Price) { p.numerator > 0 && p.denominator > 0 && Gcd(p.numerator, p.denominator) == 1 }

  const MAX_COMPONENT: int := 2147483647

  /** None stands for the error when a component is not positive, or above 32 bits where that bound is enforced. */
  function FromRatio(n: int, d: int, bounded: bool): Option<Price> {
    if n <= 0 || d <= 0 then None
    else if bounded && (n > MAX_COMPONENT || d > MAX_COMPONENT) then None
    else Quotients(n, d, Gcd(n, d))
  }

  function Quotients(n: nat, d: nat, g: nat): Option<Price> { if g == 0 then None else Some(Price(n / g, d / g)) }

  method MakePrice(n: int, d: int, bounded: bool) returns (p: Option<Price>)
    ensures p == FromRatio(n, d, bounded)
  {
    if n <= 0 || d <= 0 { return None; }
    if bounded && (n > MAX_COMPONENT || d > MAX_COMPONENT) { return None; }
    var divisor := GreatestCommonDivisor(n, d);
    p := Quotients(n, d, divisor);
  }

  lemma {:induction false} QuotientExact(x: nat, g: nat)
    requires g > 0 && Divides(g, x)
    ensures x == g * (x / g)
  {
    var q: int :| x == q * g;
    assert x % g == 0 by { MultipleHasNoRemainder(q, g); }
  }

  lemma {:induction false} MultipleHasNoRemainder(q: int, g: nat)
    requires g > 0
    ensures q * g % g == 0
  {
    assert q * g == g * (q * g / g) + q * g % g;
    var r, t := q * g % g, q * g / g;
    assert (q - t) * g == r;
    CancelFactor(g, q - t, 1);
    CancelFactor(g, -1, q - t);
  }

  /** Exactly the ratios of positive integers in bounds have a price; it is in lowest terms and the same ratio. */
  lemma {:induction false} PriceReduces(n: int, d: int, bounded: bool)
    ensures FromRatio(n, d, bounded).Some? <==>
              n > 0 && d > 0 && (bounded ==> n <= MAX_COMPONENT && d <= MAX_COMPONENT)
    ensures FromRatio(n, d, bounded).Some? ==>
              var p := FromRatio(n, d, bounded).value;
              LowestTerms(p) && n == Gcd(n, d) * p.numerator && d == Gcd(n, d) * p.denominator
  {
    if n > 0 && d > 0 { QuotientsReduce(n, d); }
  }

  lemma {:induction false} QuotientsReduce(n: nat, d: nat)
    requires n > 0 && d > 0
    ensures Gcd(n, d) > 0
    ensures var p := Price(n / Gcd(n, d), d / Gcd(n, d));
      LowestTerms(p) && n == Gcd(n, d) * p.numerator && d == Gcd(n, d) * p.denominator
  {
    var g := Gcd(n, d);
    GcdDivides(n, d);
    QuotientExact(n, g);
    QuotientExact(d, g);
    ReducedIsCoprime(n, d, n / g, d / g, g);
  }

  lemma {:induction false} ReducedIsCoprime(n: nat, d: nat, a: int, b: int, g: nat)
    requires g > 0 && g == Gcd(n, d) && n == g * a && d == g * b && a > 0 && b > 0
    ensures Gcd(a, b) == 1
  {
    var x, y := Bezout(n, d);
    assert x * (g * a) + y * (g * b) == (x * a + y * b) * g;
    UnitFactor(x * a + y * b, g);
    CombinedToOne(a, b, x, y);
  }

  lemma {:induction false} CombinedToOne(a: nat, b: nat, x: int, y: int)
    requires x * a + y * b == 1 && a > 0
    ensures Gcd(a, b) == 1
  {
    var h := Gcd(a, b);
    GcdDivides(a, b);
    var p: int :| a == p * h;
    var q: int :| b == q * h;
    assert x * (p * h) + y * (q * h) == (x * p + y * q) * h;
    UnitDivisor(x * p + y * q, h);
  }

  lemma {:induction false} UnitFactor(k: int, g: nat)
    requires g > 0 && k * g == g
    ensures k == 1
  {
    CancelFactor(g, k, 2);
    CancelFactor(g, 0, k);
  }

  lemma {:induction false} UnitDivisor(k: int, h: nat)
    requires k * h == 1 && h > 0
    ensures h == 1
  {
    CancelFactor(h, 0, k);
    MulMono(1, k, h);
  }

  /** A divisor without common factor passes over to the other factor. */
  lemma {:induction false} EuclidsLemma(a: nat, b: nat, c: nat)
    requires Gcd(a, b) == 1 && Divides(a, b * c)
    ensures Divides(a, c)
  {
    var x, y := Bezout(a, b);
    var q: int :| b * c == q * a;
    Combined(a, b, c, x, y, q);
  }

  lemma {:induction false} Combined(a: int, b: int, c: int, x: int, y: int, q: int)
    requires x * a + y * b == 1 && b * c == q * a
    ensures c == (x * c + y * q) * a
  {
    assert (x * a + y * b) * c == x * c * a + y * (b * c);
    assert y * (q * a) == y * q * a;
  }

  lemma {:induction false} MutualDivisors(a: nat, b: nat)
    requires a > 0 && b > 0 && Divides(a, b) && Divides(b, a)
    ensures a == b
  {
    var p: int :| b == p * a;
    var q: int :| a == q * b;
    CancelFactor(a, 0, p);
    CancelFactor(b, 0, q);
    MulMono(1, p, a);
    MulMono(1, q, b);
  }

  lemma {:induction false} GcdSymmetric(a: nat, b: nat)
    requires a > 0 && b > 0
    ensures Gcd(a, b) == Gcd(b, a)
  {
    GcdDivides(a, b);
    GcdDivides(b, a);
    GcdIsGreatest(a, b, Gcd(b, a));
    GcdIsGreatest(b, a, Gcd(a, b));
    MutualDivisors(Gcd(a, b), Gcd(b, a));
  }

  /** Two prices in lowest terms have the same components exactly when they are the same ratio. */
  lemma {:induction false} SameComponentsExactly(p: Price, q: Price)
    requires LowestTerms(p) && LowestTerms(q)
    ensures p == q <==> p.numerator * q.denominator == q.numerator * p.denominator
  {
    if p.numerator * q.denominator == q.numerator * p.denominator {
      CrossDivides(p, q);
      CrossDivides(q, p);
      MutualDivisors(p.numerator, q.numerator);
      MutualDivisors(p.denominator, q.denominator);
    }
  }

  lemma {:induction false} CrossDivides(p: Price, q: Price)
    requires LowestTerms(p) && p.numerator * q.denominator == q.numerator * p.denominator
    ensures Divides(p.numerator, q.numerator) && Divides(p.denominator, q.denominator)
  {
    assert p.denominator * q.numerator == q.denominator * p.numerator;
    EuclidsLemma(p.numerator, p.denominator, q.numerator);
    GcdSymmetric(p.numerator, p.denominator);
    assert p.numerator * q.denominator == q.numerator * p.denominator;
    EuclidsLemma(p.denominator, p.numerator, q.denominator);
  }

  /** The text computed from a price is the text of the ratio it was made from. */
  lemma {:induction false} TextSurvivesReduction(n: int, d: int, bounded: bool, decimals: nat)
    requires FromRatio(n, d, bounded).Some?
    ensures d > 0 && FromRatio(n, d, bounded).value.denominator > 0
    ensures var p := FromRatio(n, d, bounded).value; Format(p.numerator, p.denominator, decimals) == Format(n, d, decimals)
  {
    PriceReduces(n, d, bounded);
    var p := FromRatio(n, d, bounded).value;
    GcdDivides(n, d);
    ScaleInvariant(p.numerator, p.denominator, Gcd(n, d), decimals);
  }

  // ---- The other two texts -----------------------------------------------------------------------

  /** As the metric value schema writes it: a point is printed whatever the number of decimals. */
  function RationalText(n: nat, d: nat, decimals: nat): string
    requires d > 0
  {
    var rounded := HalfUp(n * Power(decimals), d);
    Print(Whole(rounded, Power(decimals))) + "." + Pad(Print(Rest(rounded, Power(decimals))), decimals)
  }

  function HalfUp(scaled: nat, d: nat): nat
    requires d > 0
  {
    scaled / d + (if 2 * (scaled % d) >= d then 1 else 0)
  }

  /** As the depth observation schema writes it, to seven places. */
  function ExpectedDecimal(n: nat, d: nat): string
    requires d > 0
  {
    var scale := 10000000;
    var rounded := if (n * scale % d) * 2 >= d then n * scale / d + 1 else n * scale / d;
    Print(rounded / scale) + "." + Pad(Print(rounded % scale), 7)
  }

  lemma {:induction false} SevenPlaces()
    ensures Power(7) == 10000000
  {
    assert Power(4) == 10000;
  }

  lemma {:induction false} NoPlaces(n: nat, d: nat)
    requires d > 0
    ensures Format(n, d, 0) != RationalText(n, d, 0)
  {
    HalfUpRounds(n, d, 1);
    WholeOfOne(Rounded(n, d, 1));
    assert |RationalText(n, d, 0)| > |Print(Rounded(n, d, 1))|;
  }

  lemma {:induction false} WholeOfOne(n: nat)
    ensures Whole(n, 1) == n
  {}

  lemma {:induction false} HalfUpRounds(n: nat, d: nat, scale: nat)
    requires d > 0
    ensures HalfUp(n * scale, d) == Rounded(n, d, scale)
  {}

  /**
   * The text of a price in lowest terms and the text the metric value schema computes from any terms of the same ratio agree
   * exactly when decimals are printed; at the seven places the schemas use, all three texts are the same.
   */
  lemma {:induction false} TextsAgreeExactly(n: nat, d: nat, k: nat, decimals: nat)
    requires n > 0 && d > 0 && k > 0
    ensures k * d > 0 && FromRatio(n, d, false).Some? && FromRatio(n, d, false).value.denominator > 0
    ensures var p := FromRatio(n, d, false).value;
      && (Format(p.numerator, p.denominator, decimals) == RationalText(k * n, k * d, decimals) <==> decimals > 0)
      && Format(p.numerator, p.denominator, 7) == RationalText(k * n, k * d, 7) == ExpectedDecimal(k * n, k * d)
  {
    PriceReduces(n, d, false);
    TextSurvivesReduction(n, d, false, decimals);
    TextSurvivesReduction(n, d, false, 7);
    ScaleInvariant(n, d, k, decimals);
    ScaleInvariant(n, d, k, 7);
    SevenPlaces();
    HalfUpRounds(k * n, k * d, Power(decimals));
    HalfUpRounds(k * n, k * d, Power(7));
    if decimals == 0 { NoPlaces(k * n, k * d); }
  }
}
