/** Decimal strings of amounts: `FormatMinor` of packages/payment-util/money/money.go and
    `decimalMajorToMinor` of packages/accounting-admin-web/src/utils/money.ts. */
module MoneyText {
  import opened Prelude
  import opened Money

  function Pow10(n: nat): (p: nat)
    ensures p > 0
  {
    if n == 0 then 1 else 10 * Pow10(n - 1)
  }

  predicate IsDigit(c: char) { '0' <= c <= '9' }

  predicate Digits(s: string) { forall i | 0 <= i < |s| :: IsDigit(s[i]) }

  function DigitChar(d: nat): (c: char)
    requires d < 10
    ensures IsDigit(c) && c as int == '0' as int + d
  {
    "0123456789"[d]
  }

  /** The number a digit string stands for; 0 for the empty one. */
  function Value(s: string): nat
    requires Digits(s)
  {
    if s == [] then 0 else Value(s[..|s| - 1]) * 10 + (s[|s| - 1] as int - '0' as int)
  }

  /** A number in decimal, and padded with zeros to p digits (a number of more digits is cut). */
  function Show(n: nat): (s: string)
    ensures Digits(s) && s != []
  {
    if n < 10 then [DigitChar(n)] else Show(n / 10) + [DigitChar(n % 10)]
  }

  function Padded(n: nat, p: nat): (s: string)
    ensures Digits(s) && |s| == p
    decreases p
  {
    if p == 0 then [] else Padded(n / 10, p - 1) + [DigitChar(n % 10)]
  }

  /** High and low part of a number with respect to a unit. */
  function High(n: nat, unit: nat): nat
    requires unit > 0
  {
    n / unit
  }

  function Low(n: nat, unit: nat): nat
    requires unit > 0
  {
    n % unit
  }

  function ShowInt(x: int): string { if x < 0 then "-" + Show(-x) else Show(x) }

  /** A number padded with zeros to a width of p, in which a sign counts. */
  function ZeroPadded(x: int, p: nat): string {
    var n, width: nat := Abs(x), if x < 0 && p > 0 then p - 1 else p;
    (if x < 0 then "-" else "") + if n < Pow10(width) then Padded(n, width) else Show(n)
  }

  /** What comes out of `FormatMinor`: the negation of the smallest 64-bit number overflows, and its
      parts keep their signs. */
  function Formatted(minor: int, p: nat): string {
    var n := if minor < 0 then Wrap(-minor) else minor;
    var unit := Pow10(p);
    (if minor < 0 then "-" else "") +
    if p == 0 then ShowInt(n) else ShowInt(Quotient(n, unit)) + ("." + ZeroPadded(Remainder(n, unit), p))
  }

  /** `MinorUnitsPerMajor`; `FormatMinor` has the same loop. */
  method MinorUnitsPerMajor(p: nat) returns (n: nat)
    ensures n == Pow10(p) && n > 0
  {
    n := 1;
    var i := 0;
    while i < p
      invariant i <= p && n == Pow10(i)
    {
      n := n * 10;
      i := i + 1;
    }
  }

  /** `FormatMinor`; `None` stands for an unknown currency. */
  method FormatMinor(minor: int, precision: Option<nat>) returns (text: Option<string>)
    requires MIN <= minor <= MAX && (precision.Some? ==> precision.value <= 18)
    ensures text == if precision.Some? then Some(Formatted(minor, precision.value)) else None
  {
    if precision.None? { return None; }
    var p := precision.value;
    var sign, n := "", minor;
    if n < 0 { sign, n := "-", Wrap(-n); }
    if p == 0 { return Some(sign + ShowInt(n)); }
    var div := MinorUnitsPerMajor(p);
    var major, frac := Quotient(n, div), Remainder(n, div);
    return Some(sign + (ShowInt(major) + ("." + ZeroPadded(frac, p))));
  }

  // ---------------------------------------------------------------- reading them back

  function WithoutCommas(s: string): string {
    if s == [] then [] else (if s[0] == ',' then [] else [s[0]]) + WithoutCommas(s[1..])
  }

  /** The position of the first dot, |s| if there is none. */
  function Dot(s: string): (k: nat)
    ensures k <= |s| && (forall i | 0 <= i < k :: s[i] != '.') && (k < |s| ==> s[k] == '.')
  {
    if s == [] || s[0] == '.' then 0 else 1 + Dot(s[1..])
  }

  /** The fraction part, in minor units of a currency with `digits` digits; more digits than that
      are rounded half to even. */
  function Fraction(frac: string, digits: nat): nat
    requires Digits(frac)
  {
    if digits == 0 || frac == [] then 0
    else if |frac| <= digits then Value(frac + seq(digits - |frac|, _ => '0'))
    else
      var base, rest := Value(frac[..digits]), Value(frac[digits..]);
      var half := 5 * Pow10(|frac| - digits - 1);
      if rest > half || (rest == half && base % 2 != 0) then base + 1 else base
  }

  /** The parts before the first dot, and between it and the second. */
  function Parts(abs: string): (string, string) {
    var k := Dot(abs);
    var tail := if k < |abs| then abs[k + 1..] else [];
    (abs[..k], tail[..Dot(tail)])
  }

  function Signed(neg: bool, n: int): int { if neg then -n else n }

  function Unsign(raw: string): (bool, string) {
    if raw != [] && raw[0] == '-' then (true, raw[1..]) else (false, raw)
  }

  datatype Literal = Literal(neg: bool, whole: string, frac: string)

  /** The syntax `decimalMajorToMinor` accepts, for a text without surrounding blanks. */
  function Read(text: string): (r: Option<Literal>)
    ensures r.Some? ==> r.value.whole != [] && Digits(r.value.whole) && Digits(r.value.frac)
  {
    var (neg, abs) := Unsign(WithoutCommas(text));
    var (whole, frac) := Parts(abs);
    if whole == [] || !Digits(whole) || !Digits(frac) then None else Some(Literal(neg, whole, frac))
  }

  function Minor(whole: string, frac: string, digits: nat): nat
    requires Digits(whole) && Digits(frac)
  {
    Value(whole) * Pow10(digits) + Fraction(frac, digits)
  }

  /** `decimalMajorToMinor`. */
  function Parse(text: string, digits: nat): Option<int> {
    match Read(text)
    case None => None
    case Some(l) => Some(Signed(l.neg, Minor(l.whole, l.frac, digits)))
  }

  // ---------------------------------------------------------------- digits and values

  lemma {:induction false} ValueShow(n: nat)
    ensures Value(Show(n)) == n
  {
    if n >= 10 {
      ValueShow(n / 10);
      assert Show(n)[..|Show(n)| - 1] == Show(n / 10);
    }
  }

  lemma {:induction false} ValuePadded(n: nat, p: nat)
    requires n < Pow10(p)
    ensures Value(Padded(n, p)) == n
    decreases p
  {
    if p > 0 {
      ValuePadded(n / 10, p - 1);
      assert Padded(n, p)[..p - 1] == Padded(n / 10, p - 1);
    }
  }

  lemma {:induction false} ValueSnoc(s: string, c: char)
    requires Digits(s) && IsDigit(c)
    ensures Digits(s + [c]) && Value(s + [c]) == Value(s) * 10 + (c as int - '0' as int)
  {
    assert (s + [c])[..|s|] == s;
  }

  lemma TimesTen(v: nat, p: nat, low: nat)
    ensures (v * p + low) * 10 == v * (10 * p) + low * 10
  {
  }

  lemma {:induction false} ValueAppend(a: string, b: string)
    requires Digits(a) && Digits(b)
    ensures Digits(a + b) && Value(a + b) == Value(a) * Pow10(|b|) + Value(b) && Value(b) < Pow10(|b|)
  {
    if b == [] {
      assert a + b == a;
    } else {
      var init, c := b[..|b| - 1], b[|b| - 1];
      ValueAppend(a, init);
      ValueSnoc(a + init, c);
      ValueSnoc(init, c);
      assert b == init + [c] && a + b == (a + init) + [c];
      TimesTen(Value(a), Pow10(|init|), Value(init));
    }
  }

  lemma {:induction false} ValueZeros(n: nat)
    ensures Digits(seq(n, _ => '0')) && Value(seq(n, _ => '0')) == 0
  {
    if n > 0 {
      ValueZeros(n - 1);
      assert seq(n, _ => '0')[..n - 1] == seq(n - 1, _ => '0');
    }
  }

  // ---------------------------------------------------------------- the parts of a decimal string

  lemma {:induction false} DotAfterDigits(whole: string, tail: string)
    requires Digits(whole) && (tail == [] || tail[0] == '.')
    ensures Dot(whole + tail) == |whole|
  {
    if whole == [] {
      assert whole + tail == tail;
    } else {
      DotAfterDigits(whole[1..], tail);
      assert (whole + tail)[1..] == whole[1..] + tail;
    }
  }

  lemma {:induction false} NoCommas(s: string)
    requires ',' !in s
    ensures WithoutCommas(s) == s
  {
    if s != [] { NoCommas(s[1..]); }
  }

  /** A decimal string in the form both sides write it. */
  function Decimal(neg: bool, whole: string, frac: string): string {
    (if neg then "-" else "") + (whole + ("." + frac))
  }

  lemma {:induction false} DecimalParts(whole: string, frac: string)
    requires Digits(whole) && Digits(frac)
    ensures Parts(whole + ("." + frac)) == (whole, frac)
  {
    var abs := whole + ("." + frac);
    DotAfterDigits(whole, "." + frac);
    assert abs[..|whole|] == whole && abs[|whole| + 1..] == frac;
    DotAfterDigits(frac, []);
    assert frac + [] == frac;
  }

  lemma {:induction false} DecimalHasNoCommas(neg: bool, whole: string, frac: string)
    requires Digits(whole) && Digits(frac)
    ensures WithoutCommas(Decimal(neg, whole, frac)) == Decimal(neg, whole, frac)
  {
    NoCommas(Decimal(neg, whole, frac));
  }

  lemma {:induction false} DecimalSign(neg: bool, whole: string, frac: string)
    requires whole != [] && Digits(whole)
    ensures Unsign(Decimal(neg, whole, frac)) == (neg, whole + ("." + frac))
  {
    var abs := whole + ("." + frac);
    assert "" + abs == abs && ("-" + abs)[1..] == abs;
  }

  lemma {:induction false} ReadDecimal(neg: bool, whole: string, frac: string)
    requires whole != [] && Digits(whole) && Digits(frac)
    ensures Read(Decimal(neg, whole, frac)) == Some(Literal(neg, whole, frac))
  {
    DecimalHasNoCommas(neg, whole, frac);
    DecimalSign(neg, whole, frac);
    DecimalParts(whole, frac);
  }

  lemma {:induction false} ParseDecimal(neg: bool, whole: string, frac: string, digits: nat)
    requires whole != [] && Digits(whole) && Digits(frac)
    ensures Parse(Decimal(neg, whole, frac), digits) == Some(Signed(neg, Minor(whole, frac, digits)))
  {
    ReadDecimal(neg, whole, frac);
  }

  // ---------------------------------------------------------------- what the parts are worth

  lemma SplitUnit(n: nat, unit: nat)
    requires unit > 0
    ensures High(n, unit) * unit + Low(n, unit) == n && Low(n, unit) < unit
  {
  }

  lemma {:induction false} FractionExact(frac: string, digits: nat)
    requires Digits(frac) && |frac| <= digits
    ensures Fraction(frac, digits) == Value(frac) * Pow10(digits - |frac|)
  {
    var zeros := seq(digits - |frac|, _ => '0');
    ValueZeros(|zeros|);
    if frac != [] { ValueAppend(frac, zeros); }
  }

  lemma {:induction false} MinorOfShown(n: nat, p: nat)
    requires p >= 1
    ensures Minor(Show(High(n, Pow10(p))), Padded(Low(n, Pow10(p)), p), p) == n
  {
    SplitUnit(n, Pow10(p));
    ValueShow(High(n, Pow10(p)));
    ValuePadded(Low(n, Pow10(p)), p);
    FractionExact(Padded(Low(n, Pow10(p)), p), p);
  }

  /** The exact amount of a decimal string, in units of its last digit. */
  function Exact(whole: string, frac: string): nat
    requires Digits(whole) && Digits(frac)
  {
    Value(whole) * Pow10(|frac|) + Value(frac)
  }

  lemma {:induction false} Pow10Splits(a: nat, b: nat)
    ensures Pow10(a + b) == Pow10(a) * Pow10(b)
  {
    if a > 0 { Pow10Splits(a - 1, b); }
  }

  lemma Distribute(a: nat, b: nat, c: nat, d: nat)
    ensures (a * b + c) * d == a * (b * d) + c * d
  {
  }

  lemma {:induction false} MinorOfShort(whole: string, frac: string, digits: nat)
    requires Digits(whole) && Digits(frac) && |frac| <= digits
    ensures Minor(whole, frac, digits) == Exact(whole, frac) * Pow10(digits - |frac|)
  {
    FractionExact(frac, digits);
    Pow10Splits(|frac|, digits - |frac|);
    Distribute(Value(whole), Pow10(|frac|), Value(frac), Pow10(digits - |frac|));
  }

  lemma UniqueParts(q: nat, r: nat, den: nat)
    requires r < den
    ensures (q * den + r) / den == q && (q * den + r) % den == r
  {
    var x := q * den + r;
    var q1, r1 := x / den, x % den;
    assert q1 * den + r1 == x && 0 <= r1 < den;
    if q1 < q { Apart(q1, q, den); }
    if q < q1 { Apart(q, q1, den); }
  }

  lemma RoundedParts(q: nat, r: nat, den: nat)
    requires r < den
    ensures Rounded(q * den + r, den) == Nearest(q, r, den)
  {
    UniqueParts(q, r, den);
  }

  lemma EvenTimes(a: nat, b: nat)
    requires b % 2 == 0
    ensures a * b % 2 == 0
  {
    var h := b / 2;
    assert a * b == 2 * (a * h);
  }

  lemma HalfRule(m: nat, base: nat, rest: nat, tenth: nat)
    requires m % 2 == 0
    ensures m + (if rest > 5 * tenth || (rest == 5 * tenth && base % 2 != 0) then base + 1 else base)
            == Nearest(m + base, rest, 10 * tenth)
  {
  }

  lemma {:induction false} RoundsFraction(whole: nat, frac: string, digits: nat)
    requires Digits(frac) && 1 <= digits < |frac|
    ensures whole * Pow10(digits) + Fraction(frac, digits)
            == Nearest(whole * Pow10(digits) + Value(frac[..digits]), Value(frac[digits..]), Pow10(|frac| - digits))
  {
    assert Pow10(digits) == 2 * (5 * Pow10(digits - 1));
    EvenTimes(whole, Pow10(digits));
    HalfRule(whole * Pow10(digits), Value(frac[..digits]), Value(frac[digits..]), Pow10(|frac| - digits - 1));
  }

  lemma {:induction false} ExactSplits(whole: string, frac: string, digits: nat)
    requires Digits(whole) && Digits(frac) && digits <= |frac|
    ensures Exact(whole, frac)
            == (Value(whole) * Pow10(digits) + Value(frac[..digits])) * Pow10(|frac| - digits) + Value(frac[digits..])
    ensures Value(frac[digits..]) < Pow10(|frac| - digits)
  {
    assert frac[..digits] + frac[digits..] == frac;
    ValueAppend(frac[..digits], frac[digits..]);
    Pow10Splits(digits, |frac| - digits);
    Distribute(Value(whole), Pow10(digits), Value(frac[..digits]), Pow10(|frac| - digits));
  }

  lemma {:induction false} MinorOfLong(whole: string, frac: string, digits: nat)
    requires Digits(whole) && Digits(frac) && 1 <= digits < |frac|
    ensures Minor(whole, frac, digits) == Rounded(Exact(whole, frac), Pow10(|frac| - digits))
  {
    RoundsFraction(Value(whole), frac, digits);
    ExactSplits(whole, frac, digits);
    RoundedParts(Value(whole) * Pow10(digits) + Value(frac[..digits]), Value(frac[digits..]), Pow10(|frac| - digits));
  }

  lemma RoundedSigned(neg: bool, num: nat, den: nat)
    requires den > 0
    ensures Rounded(Signed(neg, num), den) == Signed(neg, Rounded(num, den))
  {
    RoundingIsOdd(num, den);
  }

  // ---------------------------------------------------------------- the theorems

  /** A whole number and a fraction that are not negative, as `FormatMinor` prints them. */
  lemma {:induction false} PartsShown(n: nat, p: nat)
    ensures ShowInt(Quotient(n, Pow10(p))) == Show(High(n, Pow10(p)))
    ensures ZeroPadded(Remainder(n, Pow10(p)), p) == Padded(Low(n, Pow10(p)), p)
  {
    SplitUnit(n, Pow10(p));
  }

  lemma {:induction false} FormattedIsDecimal(minor: int, p: nat)
    requires MIN < minor <= MAX && p >= 1
    ensures var n: nat := Abs(minor);
            Formatted(minor, p) == Decimal(minor < 0, Show(High(n, Pow10(p))), Padded(Low(n, Pow10(p)), p))
  {
    PartsShown(Abs(minor), p);
    assert (if minor < 0 then Wrap(-minor) else minor) == Abs(minor);
  }

  /** The text of the smallest number has a second sign where digits should be. */
  lemma {:induction false} MinIsNoDecimal(p: nat)
    requires p >= 1 && -MIN / Pow10(p) >= 1
    ensures Read(Formatted(MIN, p)) == None
  {
    var unit := Pow10(p);
    var whole, frac := "-" + Show(-MIN / unit), ZeroPadded(Remainder(MIN, unit), p);
    assert Quotient(MIN, unit) == -(-MIN / unit) < 0;
    assert Formatted(MIN, p) == "-" + (whole + ("." + frac));
    SecondSign(whole + ("." + frac));
  }

  lemma {:induction false} SecondSign(abs: string)
    requires abs != [] && abs[0] == '-' && ',' !in abs
    ensures Read("-" + abs) == None
  {
    NoCommas("-" + abs);
    assert ("-" + abs)[1..] == abs;
    SignIsNoDigit(abs);
  }

  lemma {:induction false} SignIsNoDigit(abs: string)
    requires abs != [] && abs[0] == '-'
    ensures Parts(abs).0 != [] && !Digits(Parts(abs).0)
  {
    assert abs[..Dot(abs)][0] == '-';
  }

  lemma {:induction false} Pow10Grows(p: nat, q: nat)
    requires p <= q
    ensures Pow10(p) <= Pow10(q)
  {
    if p < q { Pow10Grows(p, q - 1); }
  }

  lemma {:induction false} UnitFits(p: nat)
    requires p <= 18
    ensures Pow10(p) <= 1_000_000_000_000_000_000 && -MIN / Pow10(p) >= 1
  {
    assert Pow10(6) == 1_000_000 by { assert Pow10(3) == 1000; }
    Pow10Splits(6, 6);
    Pow10Splits(6, 12);
    Pow10Grows(p, 18);
    QuotientBounds(-MIN, Pow10(p));
  }

  /** For a currency with decimals, reading what was written gives the amount back, for every 64-bit
      amount but the smallest. */
  lemma {:induction false} FormatThenParse(minor: int, p: nat)
    requires MIN <= minor <= MAX && 1 <= p <= 18
    ensures Parse(Formatted(minor, p), p) == Some(minor) <==> minor != MIN
  {
    if minor != MIN {
      var n: nat := Abs(minor);
      MinorOfShown(n, p);
      FormattedIsDecimal(minor, p);
      ParseDecimal(minor < 0, Show(High(n, Pow10(p))), Padded(Low(n, Pow10(p)), p), p);
    } else {
      UnitFits(p);
      MinIsNoDecimal(p);
    }
  }

  /** A fraction that is not longer than the currency's is read exactly. */
  lemma {:induction false} ShortFractionsAreExact(neg: bool, whole: string, frac: string, digits: nat)
    requires whole != [] && Digits(whole) && Digits(frac) && |frac| <= digits
    ensures Parse(Decimal(neg, whole, frac), digits) == Some(Signed(neg, Exact(whole, frac) * Pow10(digits - |frac|)))
  {
    ParseDecimal(neg, whole, frac, digits);
    MinorOfShort(whole, frac, digits);
  }

  /** A longer fraction is rounded half to even, from its exact value. */
  lemma {:induction false} LongFractionsAreRounded(neg: bool, whole: string, frac: string, digits: nat)
    requires whole != [] && Digits(whole) && Digits(frac) && 1 <= digits < |frac|
    ensures Parse(Decimal(neg, whole, frac), digits)
            == Some(Rounded(Signed(neg, Exact(whole, frac)), Pow10(|frac| - digits)))
  {
    ParseDecimal(neg, whole, frac, digits);
    MinorOfLong(whole, frac, digits);
    RoundedSigned(neg, Exact(whole, frac), Pow10(|frac| - digits));
  }

  lemma {:induction false} RoundedExact(whole: string, frac: string)
    requires Digits(whole) && Digits(frac)
    ensures Rounded(Exact(whole, frac), Pow10(|frac|)) == Nearest(Value(whole), Value(frac), Pow10(|frac|))
  {
    ValueAppend([], frac);
    RoundedParts(Value(whole), Value(frac), Pow10(|frac|));
  }

  /** For a currency without decimals the fraction is dropped, which is rounding half to even
      exactly if it is less than a half, or a half of an even amount. */
  lemma {:induction false} NoDecimalsTruncates(neg: bool, whole: string, frac: string)
    requires whole != [] && Digits(whole) && Digits(frac)
    ensures Parse(Decimal(neg, whole, frac), 0) == Some(Signed(neg, Value(whole)))
    ensures var unit := Pow10(|frac|);
            Value(whole) == Rounded(Exact(whole, frac), unit)
            <==> 2 * Value(frac) < unit || (2 * Value(frac) == unit && Value(whole) % 2 == 0)
  {
    ParseDecimal(neg, whole, frac, 0);
    RoundedExact(whole, frac);
  }
}
