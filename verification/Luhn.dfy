/** The check digit of packages/payment-util/piiredact/piiredact.go (Annex B of ISO/IEC 7812-1). */
module Luhn {

  predicate IsDigit(c: char) { '0' <= c <= '9' }

  predicate AllDigits(s: string) { forall i | 0 <= i < |s| :: IsDigit(s[i]) }

  function Digit(c: char): nat
    requires IsDigit(c)
  {
    c as int - '0' as int
  }

  /** What a digit counts for, in a doubled position or not. */
  function Weight(d: nat, doubled: bool): nat {
    if !doubled then d else if 2 * d > 9 then 2 * d - 9 else 2 * d
  }

  /** The weighted sum of a string whose last digit is doubled or not. */
  function Sum(s: string, doubled: bool): nat
    requires AllDigits(s)
  {
    if s == [] then 0 else Sum(s[..|s| - 1], !doubled) + Weight(Digit(s[|s| - 1]), doubled)
  }

  predicate Valid(s: string)
    requires AllDigits(s)
  {
    Sum(s, false) % 10 == 0
  }

  /** The loop of `luhn`, from the last digit to the first. */
  method Check(s: string) returns (ok: bool)
    requires AllDigits(s)
    ensures ok == Valid(s)
  {
    var sum, alt, i := 0, false, |s| - 1;
    assert s[..|s|] == s;
    while i >= 0
      invariant -1 <= i < |s|
      invariant sum + Sum(s[..i + 1], alt) == Sum(s, false)
    {
      assert s[..i + 1][..i] == s[..i];
      var d := Digit(s[i]);
      if alt {
        d := d * 2;
        if d > 9 { d := d - 9; }
      }
      sum := sum + d;
      alt := !alt;
      i := i - 1;
    }
    return sum % 10 == 0;
  }

  /** Whether position k of a string of length n is doubled. */
  predicate DoubledAt(n: nat, k: nat) { (n - k) % 2 == 0 }

  lemma {:induction false} SumOfUpdate(s: string, k: nat, c: char, doubled: bool)
    requires AllDigits(s) && k < |s| && IsDigit(c)
    ensures AllDigits(s[k := c])
    ensures var here := DoubledAt(|s|, k) != doubled;
            Sum(s[k := c], doubled) == Sum(s, doubled) - Weight(Digit(s[k]), here) + Weight(Digit(c), here)
  {
    var n := |s| - 1;
    if k < n {
      SumOfUpdate(s[..n], k, c, !doubled);
      assert s[k := c][..n] == s[..n][k := c];
    } else {
      assert s[k := c][..n] == s[..n];
    }
  }

  lemma WeightsDiffer(a: nat, b: nat, doubled: bool)
    requires a <= 9 && b <= 9 && a != b
    ensures Weight(a, doubled) != Weight(b, doubled) && Weight(a, doubled) <= 9 && Weight(b, doubled) <= 9
  {
  }

  /** What doubling adds to a digit's weight. */
  function Gain(d: nat): int { Weight(d, true) - Weight(d, false) }

  lemma GainsDiffer(a: nat, b: nat)
    requires a <= 9 && b <= 9
    ensures Gain(a) == Gain(b) <==> a == b || (a == 0 && b == 9) || (a == 9 && b == 0)
    ensures -9 <= Gain(a) - Gain(b) <= 9
  {
  }

  lemma SmallShift(x: int, d: int)
    requires x % 10 == 0 && -9 <= d <= 9
    ensures (x + d) % 10 == 0 <==> d == 0
  {
  }

  /** Changing one digit of an accepted string, of any length, makes the check fail. */
  lemma OneWrongDigitIsCaught(s: string, k: nat, c: char)
    requires AllDigits(s) && Valid(s) && k < |s| && IsDigit(c) && c != s[k]
    ensures AllDigits(s[k := c]) && !Valid(s[k := c])
  {
    SumOfUpdate(s, k, c, false);
    var here := DoubledAt(|s|, k);
    WeightsDiffer(Digit(s[k]), Digit(c), here);
    SmallShift(Sum(s, false), Weight(Digit(c), here) - Weight(Digit(s[k]), here));
  }

  lemma SumOfSwap(s: string, k: nat)
    requires AllDigits(s) && k + 1 < |s|
    ensures var t, a, b := s[k := s[k + 1]][k + 1 := s[k]], Digit(s[k]), Digit(s[k + 1]);
            AllDigits(t) && Sum(t, false) == Sum(s, false)
              + if DoubledAt(|s|, k) then Gain(b) - Gain(a) else Gain(a) - Gain(b)
  {
    var half := s[k := s[k + 1]];
    var here, a, b := DoubledAt(|s|, k), Digit(s[k]), Digit(s[k + 1]);
    SumOfUpdate(s, k, s[k + 1], false);
    SumOfUpdate(half, k + 1, s[k], false);
    assert DoubledAt(|half|, k + 1) == !here && half[k + 1] == s[k + 1];
    assert Sum(half, false) == Sum(s, false) - Weight(a, here) + Weight(b, here);
  }

  /** Swapping two adjacent digits of an accepted string goes unnoticed exactly if the digits are
      equal or are 0 and 9. */
  lemma AdjacentSwapIsCaught(s: string, k: nat)
    requires AllDigits(s) && Valid(s) && k + 1 < |s|
    ensures var t := s[k := s[k + 1]][k + 1 := s[k]];
            && AllDigits(t)
            && (Valid(t) <==> s[k] == s[k + 1] || (s[k] == '0' && s[k + 1] == '9') || (s[k] == '9' && s[k + 1] == '0'))
  {
    var a, b := Digit(s[k]), Digit(s[k + 1]);
    SumOfSwap(s, k);
    GainsDiffer(a, b);
    SmallShift(Sum(s, false), if DoubledAt(|s|, k) then Gain(b) - Gain(a) else Gain(a) - Gain(b));
  }
}
