/** `scrubLuhn` of packages/payment-util/piiredact/piiredact.go: card numbers in free text. */
module CardScrub {
  import opened Luhn

  /** s[a..b] is a run of digits that cannot be extended. */
  predicate IsRun(s: string, a: int, b: int) {
    && 0 <= a < b <= |s| && AllDigits(s[a..b])
    && (a > 0 ==> !IsDigit(s[a - 1])) && (b < |s| ==> !IsDigit(s[b]))
  }

  /** The run s[a..b] looks like a card number. */
  predicate IsCard(s: string, a: int, b: int)
    requires 0 <= a <= b <= |s|
  {
    AllDigits(s[a..b]) && 13 <= b - a <= 19 && Valid(s[a..b])
  }

  /** Position p belongs to the middle of a card number. */
  ghost predicate Hidden(s: string, p: int) {
    exists a, b :: IsRun(s, a, b) && IsCard(s, a, b) && a + 6 <= p < b - 4
  }

  ghost function Scrubbed(s: string): (r: string)
    ensures |r| == |s|
  {
    seq(|s|, p requires 0 <= p < |s| => if Hidden(s, p) then '*' else s[p])
  }

  lemma SameRun(s: string, a: int, b: int, a1: int, b1: int, p: int)
    requires IsRun(s, a, b) && IsRun(s, a1, b1) && a <= p < b && a1 <= p < b1
    ensures a == a1 && b == b1
  {
    assert forall x | a <= x < b :: s[x] == s[a..b][x - a];
    assert forall x | a1 <= x < b1 :: s[x] == s[a1..b1][x - a1];
  }

  lemma HiddenInRun(s: string, a: int, b: int, p: int)
    requires IsRun(s, a, b) && a <= p < b
    ensures Hidden(s, p) <==> IsCard(s, a, b) && a + 6 <= p < b - 4
  {
    if Hidden(s, p) {
      var a1, b1 :| IsRun(s, a1, b1) && IsCard(s, a1, b1) && a1 + 6 <= p < b1 - 4;
      SameRun(s, a, b, a1, b1, p);
    }
  }

  lemma HiddenIsDigit(s: string, p: int)
    requires Hidden(s, p)
    ensures 0 <= p < |s| && IsDigit(s[p])
  {
    var a, b :| IsRun(s, a, b) && IsCard(s, a, b) && a + 6 <= p < b - 4;
    assert s[a..b][p - a] == s[p];
  }

  function Stars(n: nat): string { seq(n, _ => '*') }

  method Scrub(s: string) returns (r: string)
    ensures r == Scrubbed(s)
  {
    if |s| < 13 {
      forall p | 0 <= p < |s| ensures !Hidden(s, p) {}
      assert s == Scrubbed(s);
      return s;
    }
    r := [];
    var i := 0;
    while i < |s|
      invariant 0 <= i <= |s| && r == Scrubbed(s)[..i]
      invariant 0 < i < |s| && IsDigit(s[i]) ==> !IsDigit(s[i - 1])
    {
      if !IsDigit(s[i]) {
        if Hidden(s, i) { HiddenIsDigit(s, i); }
        r := r + [s[i]];
        i := i + 1;
        continue;
      }
      var j := RunEnd(s, i);
      var run := s[i..j];
      ghost var before := r;
      var card := false;
      if 13 <= |run| <= 19 { card := Check(run); }
      var out := if card then run[..6] + Stars(|run| - 10) + run[|run| - 4..] else run;
      forall p | i <= p < j ensures out[p - i] == Scrubbed(s)[p] {
        HiddenInRun(s, i, j, p);
      }
      r := r + out;
      i := j;
    }
  }

  /** The end of the run of digits that starts at i. */
  method RunEnd(s: string, i: nat) returns (j: nat)
    requires i < |s| && IsDigit(s[i]) && (i > 0 ==> !IsDigit(s[i - 1]))
    ensures IsRun(s, i, j)
  {
    j := i;
    while j < |s| && IsDigit(s[j])
      invariant i <= j <= |s| && AllDigits(s[i..j])
    {
      assert s[i..j + 1] == s[i..j] + [s[j]];
      j := j + 1;
    }
  }

  // ---------------------------------------------------------------- what it guarantees

  /** The run around a digit. */
  lemma RunAround(s: string, p: int) returns (a: int, b: int)
    requires 0 <= p < |s| && IsDigit(s[p])
    ensures IsRun(s, a, b) && a <= p < b
  {
    a, b := p, p + 1;
    while a > 0 && IsDigit(s[a - 1])
      invariant 0 <= a <= p && AllDigits(s[a..p + 1])
    {
      a := a - 1;
    }
    while b < |s| && IsDigit(s[b])
      invariant p < b <= |s| && AllDigits(s[a..b])
    {
      assert s[a..b + 1] == s[a..b] + [s[b]];
      b := b + 1;
    }
  }

  lemma RunCovers(s: string, a: int, b: int, a1: int, b1: int)
    requires IsRun(s, a1, b1) && a1 <= a < b1 && a < b <= |s| && forall x | a <= x < b :: IsDigit(s[x])
    ensures b <= b1
  {
  }

  /** A long run of digits in the output was there before and is not a card number. */
  lemma LongRunIsOld(s: string, a: int, b: int)
    requires IsRun(Scrubbed(s), a, b) && b - a >= 13
    ensures Scrubbed(s)[a..b] == s[a..b] && !IsCard(s, a, b)
  {
    var r := Scrubbed(s);
    forall p | a <= p < b ensures r[p] == s[p] && IsDigit(s[p]) && !Hidden(s, p) {
      assert r[a..b][p - a] == r[p];
    }
    var a1, b1 := RunAround(s, a);
    RunCovers(s, a, b, a1, b1);
    var p := if a >= a1 + 6 then a else a1 + 6;
    HiddenInRun(s, a1, b1, p);
    assert !IsCard(s, a1, b1);
    forall x | a1 <= x < b1 ensures IsDigit(r[x]) {
      HiddenInRun(s, a1, b1, x);
      assert s[x] == s[a1..b1][x - a1];
    }
  }

  /** In the output no run of digits is a card number. */
  lemma NoCardIsLeft(s: string, a: int, b: int)
    requires IsRun(Scrubbed(s), a, b)
    ensures !IsCard(Scrubbed(s), a, b)
  {
    if b - a >= 13 { LongRunIsOld(s, a, b); }
  }

  /** Scrubbing keeps the length, changes only the middle digits of card numbers, and scrubbing
      twice is scrubbing once. */
  lemma ScrubbingIsExact(s: string)
    ensures |Scrubbed(s)| == |s|
    ensures forall p | 0 <= p < |s| :: Scrubbed(s)[p] == if Hidden(s, p) then '*' else s[p]
    ensures Scrubbed(Scrubbed(s)) == Scrubbed(s)
  {
    var r := Scrubbed(s);
    forall p | 0 <= p < |s| ensures !Hidden(r, p) {
      if Hidden(r, p) {
        var a, b :| IsRun(r, a, b) && IsCard(r, a, b) && a + 6 <= p < b - 4;
        NoCardIsLeft(s, a, b);
      }
    }
  }

  /** A card number standing alone keeps its first six and last four digits. */
  lemma CardAlone(s: string)
    requires AllDigits(s) && 13 <= |s| <= 19 && Valid(s)
    ensures Scrubbed(s) == s[..6] + Stars(|s| - 10) + s[|s| - 4..]
  {
    assert s[0..|s|] == s;
    forall p | 0 <= p < |s| ensures Hidden(s, p) <==> 6 <= p < |s| - 4 {
      HiddenInRun(s, 0, |s|, p);
    }
  }
}
