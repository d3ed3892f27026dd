/** Decimal text of natural numbers, as `toString` prints it and `BigInt` reads it. */
module Decimals {

  predicate IsDigit(c: char) { '0' <= c <= '9' }

  function DigitChar(d: nat): char
    requires d < 10
  {
    ['0', '1', '2', '3', '4', '5', '6', '7', '8', '9'][d]
  }

  function DigitValue(c: char): (d: nat)
    requires IsDigit(c)
    ensures d < 10
  {
    c as int - '0' as int
  }

  function Print(n: nat): string {
    if n < 10 then [DigitChar(n)] else Print(n / 10) + [DigitChar(n % 10)]
  }

  predicate AllDigits(s: string) { forall c | c in s :: IsDigit(c) }

  function Read(s: string): nat
    requires AllDigits(s)
  {
    if s == [] then 0 else 10 * Read(s[..|s| - 1]) + DigitValue(s[|s| - 1])
  }

  /** The form `0` or a non-zero digit followed by digits. */
  predicate Canonical(s: string) {
    AllDigits(s) && s != [] && (|s| > 1 ==> s[0] != '0')
  }

  lemma {:induction false} PrintReads(n: nat)
    ensures Canonical(Print(n)) && Read(Print(n)) == n
    ensures n > 0 ==> Print(n)[0] != '0'
  {
    if n >= 10 {
      PrintReads(n / 10);
      var head := Print(n / 10);
      assert Print(n)[..|Print(n)| - 1] == head;
    } else {
      assert Print(n)[..|Print(n)| - 1] == [];
    }
  }

  /** A text is split in one way only at the first occurrence of a separator. */
  lemma {:induction false} SplitAtFirst(c: char, a: string, b: string, a': string, b': string)
    requires c !in a && c !in a'
    requires a + [c] + b == a' + [c] + b'
    ensures a == a' && b == b'
  {
    var whole := a + [c] + b;
    var whole' := a' + [c] + b';
    assert forall i | 0 <= i < |a| :: whole[i] == a[i] && whole[i] != c;
    assert forall i | 0 <= i < |a'| :: whole'[i] == a'[i] && whole'[i] != c;
    assert whole[|a|] == c && whole'[|a'|] == c;
    assert |a| == |a'|;
    assert a == whole[..|a|] && a' == whole'[..|a'|];
    assert b == whole[|a| + 1..] && b' == whole'[|a'| + 1..];
  }

  function Power(digits: nat): (p: nat)
    ensures p > 0
  {
    if digits == 0 then 1 else 10 * Power(digits - 1)
  }

  lemma {:induction false} PrintLength(n: nat, digits: nat)
    requires 1 <= digits && n < Power(digits)
    ensures |Print(n)| <= digits
  {
    if n >= 10 { PrintLength(n / 10, digits - 1); }
  }

  /** Zeros in front, up to the given width, as `padStart` puts them. */
  function Pad(s: string, width: nat): string
    decreases width - |s|
  {
    if |s| >= width then s else Pad("0" + s, width)
  }

  lemma {:induction false} LeadingZero(s: string)
    requires AllDigits(s)
    ensures AllDigits("0" + s) && Read("0" + s) == Read(s)
  {
    if s == [] {
      assert "0"[..0] == [];
    } else {
      LeadingZero(s[..|s| - 1]);
      assert ("0" + s)[..|s|] == "0" + s[..|s| - 1];
    }
  }

  lemma {:induction false} PadReads(s: string, width: nat)
    requires AllDigits(s)
    ensures AllDigits(Pad(s, width)) && Read(Pad(s, width)) == Read(s)
    ensures |Pad(s, width)| == if |s| >= width then |s| else width
    decreases width - |s|
  {
    if |s| < width {
      LeadingZero(s);
      PadReads("0" + s, width);
    }
  }
}
