/** Amounts: banker's rounding in packages/payment-util/money/money.go and in
    packages/accounting-admin-web/src/utils/money.ts, and the decimal strings both exchange. */
module Money {
  import opened Prelude

  const MIN := -0x8000_0000_0000_0000
  const MAX := 0x7fff_ffff_ffff_ffff
  const SCALE := 100

  /** What a 64-bit operation leaves of its result. */
  function Wrap(x: int): (r: int)
    ensures MIN <= r <= MAX
    ensures MIN <= x <= MAX ==> r == x
    ensures MAX < x <= 2 * MAX ==> r < 0
    ensures 2 * MIN <= x < MIN ==> r >= 0
    ensures x == -MIN ==> r == MIN
  {
    (x - MIN) % 0x1_0000_0000_0000_0000 + MIN
  }

  function Abs(x: int): nat { if x < 0 then -x else x }

  function Quotient(a: int, b: int): int
    requires b > 0
  {
    if a >= 0 then a / b else -(-a / b)
  }

  function Remainder(a: int, b: int): int
    requires b > 0
  {
    if a >= 0 then a % b else -(-a % b)
  }

  // ---------------------------------------------------------------- rounding half to even

  /** q is a nearest integer to num / den, and the even one of two. */
  predicate IsHalfToEven(num: int, den: int, q: int)
    requires den > 0
  {
    2 * Abs(num - q * den) <= den && (2 * Abs(num - q * den) == den ==> q % 2 == 0)
  }

  function Nearest(q: int, r: int, den: int): int {
    if 2 * r < den || (2 * r == den && q % 2 == 0) then q else q + 1
  }

  function Rounded(num: int, den: int): int
    requires den > 0
  {
    Nearest(num / den, num % den, den)
  }

  lemma RoundedIsHalfToEven(num: int, den: int)
    requires den > 0
    ensures IsHalfToEven(num, den, Rounded(num, den))
  {
    var q, r := num / den, num % den;
    assert num == q * den + r;
    assert num - (q + 1) * den == r - den;
  }

  lemma Times(d: nat, k: nat)
    ensures d >= 1 ==> d * k >= k
    ensures d >= 2 ==> d * k >= 2 * k
  {
    if d >= 2 {
      assert d * k == (d - 2) * k + 2 * k;
    } else if d == 1 {
      assert d * k == k;
    }
  }

  lemma Difference(a: int, b: int, k: int)
    ensures b * k - a * k == (b - a) * k
  {
  }

  lemma Apart(a: int, b: int, den: int)
    requires den > 0 && a < b
    ensures b * den - a * den >= den && (b > a + 1 ==> b * den - a * den >= 2 * den)
  {
    Difference(a, b, den);
    Times(b - a, den);
  }

  /** There is only one such integer. */
  lemma HalfToEvenIsUnique(num: int, den: int, p: int, q: int)
    requires den > 0 && IsHalfToEven(num, den, p) && IsHalfToEven(num, den, q)
    ensures p == q
  {
    if p < q { Apart(p, q, den); }
    if q < p { Apart(q, p, den); }
  }

  lemma RoundedIs(num: int, den: int, q: int)
    requires den > 0 && IsHalfToEven(num, den, q)
    ensures Rounded(num, den) == q
  {
    RoundedIsHalfToEven(num, den);
    HalfToEvenIsUnique(num, den, q, Rounded(num, den));
  }

  lemma RoundingIsOdd(num: int, den: int)
    requires den > 0
    ensures Rounded(-num, den) == -Rounded(num, den)
  {
    RoundedIsHalfToEven(num, den);
    var q := Rounded(num, den);
    assert -num - -q * den == -(num - q * den);
    RoundedIs(-num, den, -q);
  }

  lemma RoundingIsMonotone(a: int, b: int, den: int)
    requires den > 0 && a <= b
    ensures Rounded(a, den) <= Rounded(b, den)
  {
    RoundedIsHalfToEven(a, den);
    RoundedIsHalfToEven(b, den);
    if Rounded(b, den) < Rounded(a, den) {
      Apart(Rounded(b, den), Rounded(a, den), den);
      HalfToEvenIsUnique(a, den, Rounded(a, den), Rounded(b, den));
    }
  }

  lemma FactorBounds(q: nat, d: nat, r: nat)
    requires d > 0
    ensures q <= q * d + r && (d >= 2 ==> 2 * q <= q * d + r) && (d == 1 ==> q * d == q)
  {
    assert q * (d - 1) >= 0;
    if d >= 2 { assert q * (d - 2) >= 0; }
  }

  lemma RoundedBySign(num: int, den: int)
    requires den > 0
    ensures Rounded(num, den) == (if num < 0 then -1 else 1) * Rounded(Abs(num), den)
  {
    if num < 0 { RoundingIsOdd(-num, den); }
  }

  /** The end of `divHalfToEven`: quotient and remainder are put together. */
  function RoundUp(q: int, r: int, den: int): int {
    var twoR := Wrap(r * 2);
    if twoR > den || (twoR == den && Remainder(q, 2) != 0) then Wrap(q + 1) else q
  }

  lemma RoundUpIsNearest(q: int, r: int, den: int)
    requires 0 <= q <= MAX && 0 <= r < den <= MAX && (r > 0 ==> q < MAX)
    ensures 0 <= RoundUp(q, r, den) <= MAX && (RoundUp(q, r, den) == Nearest(q, r, den) <==> 2 * r <= MAX)
  {
  }

  lemma MagnitudeRounds(num: int, den: int)
    requires 0 <= num <= MAX && 0 < den <= MAX
    ensures var q := RoundUp(num / den, num % den, den);
            0 <= q <= MAX && (q == Rounded(num, den) <==> 2 * (num % den) <= MAX)
  {
    QuotientBounds(num, den);
    RoundUpIsNearest(num / den, num % den, den);
  }

  lemma QuotientBounds(num: nat, den: nat)
    requires den > 0
    ensures 0 <= num / den <= num && (num % den > 0 ==> num / den < num)
    ensures (den == 1 ==> num / den == num) && (num >= den ==> num / den >= 1)
  {
    var q, r := num / den, num % den;
    assert num == q * den + r;
    FactorBounds(q, den, r);
    if q == 0 { assert q * den == 0; }
  }

  lemma HalfOfMin(den: int)
    requires 2 <= den <= MAX
    ensures 2 * (-MIN / den) <= -MIN
  {
    var q, r := -MIN / den, -MIN % den;
    assert -MIN == q * den + r;
    FactorBounds(q, den, r);
  }

  lemma RoundUpBelowZero(q: int, r: int, den: int)
    requires 1 <= q <= -MIN && 0 <= r < den <= MAX
    ensures -q <= RoundUp(-q, -r, den) <= 0 && (2 * r <= -MIN ==> RoundUp(-q, -r, den) == -q)
  {
  }

  lemma MinRounds(den: int)
    requires 0 < den <= MAX
    ensures var q := RoundUp(-(-MIN / den), -(-MIN % den), den);
            MIN <= q <= 0 && (den == 1 <==> q == MIN) && (2 * (-MIN % den) <= -MIN ==> q == -(-MIN / den))
  {
    QuotientBounds(-MIN, den);
    if den > 1 { HalfOfMin(den); }
    RoundUpBelowZero(-MIN / den, -MIN % den, den);
  }

  lemma RoundedMinIsNegative(den: int)
    requires 0 < den <= MAX
    ensures Rounded(MIN, den) < 0 && (den == 1 ==> Rounded(MIN, den) == MIN)
  {
    RoundedIsHalfToEven(MIN, den);
    var q := Rounded(MIN, den);
    assert q >= 0 ==> q * den >= 0;
    if den == 1 { RoundedIs(MIN, 1, MIN); }
  }

  /** `divHalfToEven`, with 64-bit arithmetic. It rounds half to even exactly unless negating the
      numerator or doubling the remainder overflows. */
  method DivHalfToEven(num0: int, den: int) returns (result: int)
    requires MIN <= num0 <= MAX && 0 < den <= MAX
    ensures MIN <= result <= MAX
    ensures num0 == MIN && den > 1 && 2 * (-MIN % den) <= -MIN ==> result == -MIN / den
    ensures result == Rounded(num0, den) <==> (num0 != MIN || den == 1) && 2 * (Abs(num0) % den) <= MAX
  {
    var sign, num := 1, num0;
    if num < 0 {
      sign := -1;
      num := Wrap(-num);
    }
    var q, r := Quotient(num, den), Remainder(num, den);
    ghost var q0 := q;
    var twoR := Wrap(r * 2);
    if twoR > den {
      q := Wrap(q + 1);
    } else if twoR == den {
      if Remainder(q, 2) != 0 { q := Wrap(q + 1); }
    }
    result := Wrap(sign * q);
    assert q == RoundUp(q0, r, den);
    if num0 == MIN {
      MinRounds(den);
      RoundedMinIsNegative(den);
      if den == 1 { assert Abs(num0) % den == 0; }
    } else {
      MagnitudeRounds(Abs(num0), den);
      RoundedBySign(num0, den);
    }
  }

  // ---------------------------------------------------------------- storage units and minor units

  /** `StorageToMinor`: only whole minor units are accepted. */
  function StorageToMinor(storage: int): Option<int> {
    if Remainder(storage, SCALE) != 0 then None else Some(Quotient(storage, SCALE))
  }

  /** `storageToMinorBanker` of the web console, on integers of any size. */
  function WebStorageToMinor(storage: int): int {
    var abs := if storage < 0 then -storage else storage;
    var quot, rem := abs / SCALE, abs % SCALE;
    var half := SCALE / 2;
    var out := if rem > half || (rem == half && quot % 2 != 0) then quot + 1 else quot;
    if storage < 0 then -out else out
  }

  /** The web console rounds half to even too, so it agrees with the Go code wherever that does not
      overflow. */
  lemma WebRoundsTheSame(storage: int)
    ensures WebStorageToMinor(storage) == Rounded(storage, SCALE)
  {
    RoundedBySign(storage, SCALE);
  }

  /** `StorageToMinorBanker`; `None` stands for an unknown currency. */
  method StorageToMinorBanker(storage: int, known: bool) returns (minor: Option<int>)
    requires MIN <= storage <= MAX
    ensures minor.Some? <==> known
    ensures known ==> MIN <= minor.value <= MAX && (minor.value == WebStorageToMinor(storage) <==> storage != MIN)
    ensures known && storage == MIN ==> minor.value == -WebStorageToMinor(storage)
  {
    if !known { return None; }
    var m := DivHalfToEven(storage, SCALE);
    WebRoundsTheSame(storage);
    return Some(m);
  }

  function RoundedStorage(storage: int): int { Rounded(storage, SCALE) * SCALE }

  /** `RoundToStorage`; `None` stands for an unknown currency. The smallest 64-bit amount comes out
      positive. */
  method RoundToStorage(storage: int, known: bool) returns (rounded: Option<int>)
    requires MIN <= storage <= MAX
    ensures rounded.Some? <==> known
    ensures known ==> rounded.value == if storage == MIN then 9_223_372_036_854_775_800 else RoundedStorage(storage)
  {
    var minor := StorageToMinorBanker(storage, known);
    if minor.None? { return None; }
    WebRoundsTheSame(storage);
    RoundedIsHalfToEven(storage, SCALE);
    return Some(Wrap(minor.value * SCALE));
  }

  /** Rounding to storage moves an amount by at most half a minor unit, yields whole minor units that
      the strict conversion accepts, and does nothing the second time. */
  lemma RoundToStorageIsIdempotent(storage: int)
    ensures 2 * Abs(storage - RoundedStorage(storage)) <= SCALE
    ensures StorageToMinor(RoundedStorage(storage)) == Some(WebStorageToMinor(storage))
    ensures RoundedStorage(RoundedStorage(storage)) == RoundedStorage(storage)
    ensures RoundedStorage(storage) == storage <==> StorageToMinor(storage).Some?
  {
    RoundedIsHalfToEven(storage, SCALE);
    WebRoundsTheSame(storage);
    var q := Rounded(storage, SCALE);
    RoundedIs(q * SCALE, SCALE, q);
    assert Abs(q) * SCALE == Abs(q * SCALE) && Abs(q) * SCALE % SCALE == 0 && Abs(q) * SCALE / SCALE == Abs(q);
    if StorageToMinor(storage).Some? { RoundedIs(storage, SCALE, storage / SCALE); }
  }
}
