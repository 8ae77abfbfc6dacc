/** What a Drop pass takes for a key with a string value
    (packages/payment-util/piiredact/piiredact.go:248-319), said without the scanner. */
module JsonFields {
  import opened JsonScrub

  /** What can stand between two quotes: every quote in it is escaped, and so is its last backslash. */
  predicate Inside(text: string) {
    if text == "" then true
    else if text[0] == '\\' then |text| >= 2 && Inside(text[2..])
    else text[0] != '"' && Inside(text[1..])
  }

  predicate Blanks(text: string) { forall x | 0 <= x < |text| :: text[x] == ' ' || text[x] == '\t' }

  /** The text begins with a quoted key up to j, a colon at k and a quoted value from v to e, with
      nothing but blanks in between. */
  predicate BeginsWithField(t: string, j: nat, k: nat, v: nat, e: nat) {
    && 0 < j < k < v < e < |t| && t[0] == t[j] == t[v] == t[e] == '"' && t[k] == ':'
    && Inside(t[1..j]) && Blanks(t[j + 1..k]) && Blanks(t[k + 1..v]) && Inside(t[v + 1..e])
  }

  lemma {:induction false} InsideIsClosed(t: string, j: nat, e: nat)
    requires j <= e < |t| && Inside(t[j..e]) && t[e] == '"'
    ensures CloseQuote(t, j) == e
    decreases e - j
  {
    if j < e {
      assert t[j..e][0] == t[j];
      if t[j] == '\\' {
        assert t[j..e][2..] == t[j + 2..e];
        InsideIsClosed(t, j + 2, e);
      } else {
        assert t[j..e][1..] == t[j + 1..e];
        InsideIsClosed(t, j + 1, e);
      }
    }
  }

  lemma {:induction false} ClosedIsInside(t: string, j: nat)
    requires j <= |t| && CloseQuote(t, j) < |t|
    ensures Inside(t[j..CloseQuote(t, j)])
    decreases |t| - j
  {
    var e := CloseQuote(t, j);
    if j < e {
      assert t[j..e][0] == t[j];
      if t[j] == '\\' && j + 1 < |t| {
        ClosedIsInside(t, j + 2);
        assert t[j..e][2..] == t[j + 2..e];
      } else {
        ClosedIsInside(t, j + 1);
        assert t[j..e][1..] == t[j + 1..e];
      }
    }
  }

  lemma {:induction false} BlanksAreSkipped(t: string, k: nat, e: nat)
    requires k <= e < |t| && Blanks(t[k..e]) && !IsBlank(t[e])
    ensures SkipBlanks(t, k) == e
  {
    forall x | k <= x < e ensures IsBlank(t[x]) { assert t[k..e][x - k] == t[x]; }
    SkipBlanksTo(t, k, e);
  }

  /** The scanner stops at the four places. */
  predicate ScansAt(t: string, j: nat, k: nat, v: nat, e: nat) {
    && 0 < j < k < v < e < |t| && t[0] == '"' && CloseQuote(t, 1) == j && SkipBlanks(t, j + 1) == k && t[k] == ':'
    && SkipBlanks(t, k + 1) == v && t[v] == '"' && CloseQuote(t, v + 1) == e
  }

  lemma {:induction false} FieldScans(t: string, j: nat, k: nat, v: nat, e: nat)
    requires BeginsWithField(t, j, k, v, e)
    ensures ScansAt(t, j, k, v, e)
  {
    InsideIsClosed(t, 1, j);
    BlanksAreSkipped(t, j + 1, k);
    BlanksAreSkipped(t, k + 1, v);
    InsideIsClosed(t, v + 1, e);
  }

  lemma {:induction false} ScannedField(t: string, j: nat, k: nat, v: nat, e: nat)
    requires ScansAt(t, j, k, v, e)
    ensures First(t) == (Field(t[..v], t[1..j], t[v + 1..e]), e + 1)
  {
    FirstIsAfterColon(t, j, k, v);
  }

  /** Such a text is read as that field, escapes and all. */
  lemma {:induction false} FieldIsRead(t: string, j: nat, k: nat, v: nat, e: nat)
    requires BeginsWithField(t, j, k, v, e)
    ensures First(t) == (Field(t[..v], t[1..j], t[v + 1..e]), e + 1)
  {
    FieldScans(t, j, k, v, e);
    ScannedField(t, j, k, v, e);
  }

  lemma {:induction false} SkippedAreBlanks(t: string, k: nat)
    requires k <= |t|
    ensures Blanks(t[k..SkipBlanks(t, k)])
  {
  }

  lemma {:induction false} ScanStops(t: string) returns (j: nat, k: nat, v: nat, e: nat)
    requires t != [] && First(t).0.Field?
    ensures ScansAt(t, j, k, v, e)
  {
    j := CloseQuote(t, 1);
    k := SkipBlanks(t, j + 1);
    v := SkipBlanks(t, k + 1);
    FirstIsAfterColon(t, j, k, v);
    e := CloseQuote(t, v + 1);
  }

  lemma {:induction false} FieldWasThere(t: string, j: nat, k: nat, v: nat, e: nat)
    requires ScansAt(t, j, k, v, e)
    ensures BeginsWithField(t, j, k, v, e)
  {
    ClosedIsInside(t, 1);
    ClosedIsInside(t, v + 1);
    SkippedAreBlanks(t, j + 1);
    SkippedAreBlanks(t, k + 1);
  }

  /** And nothing else is read as a field. */
  lemma {:induction false} FieldIff(t: string)
    requires t != []
    ensures First(t).0.Field? <==> exists j: nat, k: nat, v: nat, e: nat :: BeginsWithField(t, j, k, v, e)
  {
    if First(t).0.Field? {
      var j, k, v, e := ScanStops(t);
      FieldWasThere(t, j, k, v, e);
    }
    if j: nat, k: nat, v: nat, e: nat :| BeginsWithField(t, j, k, v, e) { FieldIsRead(t, j, k, v, e); }
  }

  /** Under a matching key the placeholder takes the value's place, and the pass goes on behind it. */
  lemma {:induction false} MatchingValueIsReplaced(t: string, j: nat, k: nat, v: nat, e: nat, rule: Rule)
    requires BeginsWithField(t, j, k, v, e)
    ensures var shown := if rule.matches(t[1..j]) then rule.placeholder else t[v + 1..e];
            Scrubbed(t, rule) == t[..v] + Quoted(shown) + Scrubbed(t[e + 1..], rule)
  {
    FieldIsRead(t, j, k, v, e);
    FirstAt(t, Field(t[..v], t[1..j], t[v + 1..e]), e + 1, t[e + 1..], rule);
  }
}
