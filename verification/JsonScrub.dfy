/** A Drop pass of `scrubJSONFieldSubstr` of packages/payment-util/piiredact/piiredact.go: string
    values under matching keys are replaced in a text that need not be JSON at all. */
module JsonScrub {

  /** `matches` stands for the lower-casing of a key and the search for the rule's needle in it. */
  datatype Rule = Rule(matches: string -> bool, placeholder: string)

  /** No quotes and no backslashes. */
  predicate Plain(text: string) { forall x | 0 <= x < |text| :: text[x] != '"' && text[x] != '\\' }

  /** The rule of a Drop pass. */
  function DropRule(matches: string -> bool): (rule: Rule)
    ensures Plain(rule.placeholder)
  {
    Rule(matches, "<redacted>")
  }

  predicate IsBlank(c: char) { c == ' ' || c == '\t' }

  /** The closing quote at or after j, skipping what backslashes escape; |s| if there is none. */
  function CloseQuote(s: string, j: nat): (e: nat)
    requires j <= |s|
    ensures j <= e <= |s| && (e < |s| ==> s[e] == '"')
    decreases |s| - j
  {
    if j == |s| || s[j] == '"' then j
    else if s[j] == '\\' && j + 1 < |s| then CloseQuote(s, j + 2)
    else CloseQuote(s, j + 1)
  }

  function SkipBlanks(s: string, k: nat): (e: nat)
    requires k <= |s|
    ensures k <= e <= |s| && (e < |s| ==> !IsBlank(s[e])) && (forall x | k <= x < e :: IsBlank(s[x]))
    decreases |s| - k
  {
    if k < |s| && IsBlank(s[k]) then SkipBlanks(s, k + 1) else k
  }

  /** The pieces the scanner sees: text it copies, and a string value with the key in front of it
      (`head` is everything from the key's opening quote up to the value's). */
  datatype Piece = Copied(text: string) | Field(head: string, key: string, value: string)

  /** The first piece of a text and how far it reaches; below, what it is when the key's closing
      quote is at j, the next character that is not blank at k, the one after the colon at v, the
      value's closing quote at e. */
  function First(s: string): (r: (Piece, nat))
    requires s != []
    ensures 0 < r.1 <= |s|
  {
    if s[0] != '"' then (Copied(s[..1]), 1)
    else
      var j := CloseQuote(s, 1);
      if j == |s| then (Copied(s), |s|) else AfterKey(s, j, SkipBlanks(s, j + 1))
  }

  function AfterKey(s: string, j: nat, k: nat): (r: (Piece, nat))
    requires 0 < j < k <= |s|
    ensures 0 < r.1 <= |s|
  {
    if k == |s| || s[k] != ':' then (Copied(s[..j + 1]), j + 1) else AfterColon(s, j, SkipBlanks(s, k + 1))
  }

  function AfterColon(s: string, j: nat, v: nat): (r: (Piece, nat))
    requires 0 < j < v <= |s|
    ensures 0 < r.1 <= |s|
  {
    if v == |s| || s[v] != '"' then (Copied(s[..v]), v) else WithValue(s, j, v, CloseQuote(s, v + 1))
  }

  function WithValue(s: string, j: nat, v: nat, e: nat): (r: (Piece, nat))
    requires 0 < j < v < e <= |s|
    ensures 0 < r.1 <= |s|
  {
    if e == |s| then (Copied(s), |s|) else (Field(s[..v], s[1..j], s[v + 1..e]), e + 1)
  }

  function Parse(s: string): (ps: seq<Piece>)
    decreases |s|
  {
    if s == [] then [] else [First(s).0] + Parse(s[First(s).1..])
  }

  function Quoted(value: string): string { "\"" + value + "\"" }

  function Text(p: Piece): string {
    match p
    case Copied(text) => text
    case Field(head, _, value) => head + Quoted(value)
  }

  function Print(ps: seq<Piece>): string {
    if ps == [] then "" else Text(ps[0]) + Print(ps[1..])
  }

  function DropValue(p: Piece, rule: Rule): Piece {
    if p.Field? && rule.matches(p.key) then p.(value := rule.placeholder) else p
  }

  function Drop(ps: seq<Piece>, rule: Rule): seq<Piece> {
    seq(|ps|, i requires 0 <= i < |ps| => DropValue(ps[i], rule))
  }

  function Scrubbed(s: string, rule: Rule): string {
    Print(Drop(Parse(s), rule))
  }

  // ---------------------------------------------------------------- the scan loop

  lemma {:induction false} CloseQuoteShift(s: string, i: nat, j: nat)
    requires i <= j <= |s|
    ensures CloseQuote(s, j) == i + CloseQuote(s[i..], j - i)
    decreases |s| - j
  {
    if j < |s| && s[j] != '"' {
      if s[j] == '\\' && j + 1 < |s| { CloseQuoteShift(s, i, j + 2); } else { CloseQuoteShift(s, i, j + 1); }
    }
  }

  lemma {:induction false} SkipBlanksShift(s: string, i: nat, j: nat)
    requires i <= j <= |s|
    ensures SkipBlanks(s, j) == i + SkipBlanks(s[i..], j - i)
    decreases |s| - j
  {
    if j < |s| && IsBlank(s[j]) { SkipBlanksShift(s, i, j + 1); }
  }

  lemma {:induction false} PrintCons(p: Piece, ps: seq<Piece>)
    ensures Print([p] + ps) == Text(p) + Print(ps)
  {
    assert ([p] + ps)[1..] == ps;
  }

  lemma {:induction false} DropCons(p: Piece, ps: seq<Piece>, rule: Rule)
    ensures Drop([p] + ps, rule) == [DropValue(p, rule)] + Drop(ps, rule)
  {
  }

  /** Handling one piece and the rest after it is handling the whole text. */
  lemma {:induction false} FirstThenRest(s: string, rule: Rule)
    requires s != []
    ensures Scrubbed(s, rule) == Text(DropValue(First(s).0, rule)) + Scrubbed(s[First(s).1..], rule)
  {
    var p, ps := First(s).0, Parse(s[First(s).1..]);
    DropCons(p, ps, rule);
    PrintCons(DropValue(p, rule), Drop(ps, rule));
  }

  method FindCloseQuote(s: string, start: nat) returns (j: nat)
    requires start <= |s|
    ensures j == CloseQuote(s, start)
  {
    j := start;
    while j < |s| && s[j] != '"'
      invariant start <= j <= |s| && CloseQuote(s, j) == CloseQuote(s, start)
    {
      if s[j] == '\\' && j + 1 < |s| { j := j + 2; } else { j := j + 1; }
    }
  }

  method FindNonBlank(s: string, start: nat) returns (k: nat)
    requires start <= |s|
    ensures k == SkipBlanks(s, start)
  {
    k := start;
    while k < |s| && (s[k] == ' ' || s[k] == '\t')
      invariant start <= k <= |s| && SkipBlanks(s, k) == SkipBlanks(s, start)
    {
      k := k + 1;
    }
  }

  /** What starts with a quote at i, with the next one at j. */
  lemma {:induction false} QuoteAt(s: string, i: nat, j: nat)
    requires i < |s| && s[i] == '"' && j == CloseQuote(s, i + 1)
    ensures First(s[i..]) == if j == |s| then (Copied(s[i..]), |s| - i)
                             else AfterKey(s[i..], j - i, SkipBlanks(s[i..], j - i + 1))
  {
    CloseQuoteShift(s, i, i + 1);
    assert s[i..][0] == '"';
  }

  /** The piece that starts at i, and where the scan goes on. */
  method ScanOne(s: string, i: nat) returns (p: Piece, next: nat)
    requires i < |s|
    ensures i < next <= |s| && (p, next - i) == First(s[i..])
  {
    if s[i] != '"' {
      assert s[i..][..1] == [s[i]];
      return Copied([s[i]]), i + 1;
    }
    var j := FindCloseQuote(s, i + 1);
    QuoteAt(s, i, j);
    if j >= |s| {
      return Copied(s[i..]), |s|;
    }
    p, next := ScanKey(s, i, j);
  }

  /** The same when a key may end at j. */
  method ScanKey(s: string, i: nat, j: nat) returns (p: Piece, next: nat)
    requires i < j < |s|
    ensures i < next <= |s| && (p, next - i) == AfterKey(s[i..], j - i, SkipBlanks(s[i..], j - i + 1))
  {
    var k := FindNonBlank(s, j + 1);
    SkipBlanksShift(s, i, j + 1);
    p, next := ScanColon(s, i, j, k);
  }

  /** The same when a colon may follow the key at k. */
  method ScanColon(s: string, i: nat, j: nat, k: nat) returns (p: Piece, next: nat)
    requires i < j < k <= |s|
    ensures i < next <= |s| && (p, next - i) == AfterKey(s[i..], j - i, k - i)
  {
    if k >= |s| || s[k] != ':' {
      assert s[i..][..j + 1 - i] == s[i..j + 1];
      return Copied(s[i..j + 1]), j + 1;
    }
    assert s[i..][k - i] == ':';
    var v := FindNonBlank(s, k + 1);
    SkipBlanksShift(s, i, k + 1);
    p, next := ScanValue(s, i, j, v);
  }

  lemma {:induction false} SliceShifts(s: string, i: nat, a: nat, b: nat)
    requires i <= a <= b <= |s|
    ensures s[i..][a - i..b - i] == s[a..b]
  {
  }

  /** What follows a colon, with the value's first quote at v and the last at e. */
  lemma {:induction false} ValueAt(s: string, i: nat, j: nat, v: nat, e: nat)
    requires i < j < v < |s| && s[v] == '"' && e == CloseQuote(s, v + 1) < |s|
    ensures AfterColon(s[i..], j - i, v - i) == (Field(s[i..v], s[i + 1..j], s[v + 1..e]), e + 1 - i)
  {
    CloseQuoteShift(s, i, v + 1);
    SliceShifts(s, i, i, v);
    SliceShifts(s, i, i + 1, j);
    SliceShifts(s, i, v + 1, e);
    assert s[i..][v - i] == '"';
  }

  /** The same when a value may start at v. */
  method ScanValue(s: string, i: nat, j: nat, v: nat) returns (p: Piece, next: nat)
    requires i < j < v <= |s|
    ensures i < next <= |s| && (p, next - i) == AfterColon(s[i..], j - i, v - i)
  {
    if v >= |s| || s[v] != '"' {
      SliceShifts(s, i, i, v);
      return Copied(s[i..v]), v;
    }
    var e := FindCloseQuote(s, v + 1);
    if e >= |s| {
      CloseQuoteShift(s, i, v + 1);
      return Copied(s[i..]), |s|;
    }
    ValueAt(s, i, j, v, e);
    return Field(s[i..v], s[i + 1..j], s[v + 1..e]), e + 1;
  }

  lemma {:induction false} FirstAt(t: string, p: Piece, n: nat, rest: string, rule: Rule)
    requires t != [] && (p, n) == First(t) && n <= |t| && rest == t[n..]
    ensures Scrubbed(t, rule) == Text(DropValue(p, rule)) + Scrubbed(rest, rule)
  {
    FirstThenRest(t, rule);
  }

  lemma {:induction false} ScrubOn(s: string, i: nat, out: string, p: Piece, next: nat, rule: Rule)
    requires i < next <= |s| && (p, next - i) == First(s[i..])
    ensures out + Scrubbed(s[i..], rule) == (out + Text(DropValue(p, rule))) + Scrubbed(s[next..], rule)
  {
    assert s[i..][next - i..] == s[next..];
    FirstAt(s[i..], p, next - i, s[next..], rule);
    Append(out, Text(DropValue(p, rule)), Scrubbed(s[next..], rule));
  }

  lemma {:induction false} Append(out: string, emitted: string, rest: string)
    ensures out + (emitted + rest) == (out + emitted) + rest
  {
  }

  /** The scan loop. */
  method Scrub(s: string, rule: Rule) returns (out: string)
    ensures out == Scrubbed(s, rule)
  {
    out := [];
    var i := 0;
    assert s[0..] == s;
    while i < |s|
      invariant i <= |s| && out + Scrubbed(s[i..], rule) == Scrubbed(s, rule)
      decreases |s| - i
    {
      var p, next := ScanOne(s, i);
      ScrubOn(s, i, out, p, next, rule);
      if p.Field? && rule.matches(p.key) { p := p.(value := rule.placeholder); }
      out, i := out + Text(p), next;
    }
  }

  // ---------------------------------------------------------------- pieces and text

  lemma {:induction false} AfterColonText(s: string, j: nat, v: nat)
    requires 0 < j < v <= |s|
    ensures Text(AfterColon(s, j, v).0) == s[..AfterColon(s, j, v).1]
  {
    if v < |s| && s[v] == '"' && CloseQuote(s, v + 1) < |s| {
      var e := CloseQuote(s, v + 1);
      assert s[..v] + Quoted(s[v + 1..e]) == s[..e + 1];
    }
  }

  lemma {:induction false} AfterKeyText(s: string, j: nat, k: nat)
    requires 0 < j < k <= |s|
    ensures Text(AfterKey(s, j, k).0) == s[..AfterKey(s, j, k).1]
  {
    if k < |s| && s[k] == ':' { AfterColonText(s, j, SkipBlanks(s, k + 1)); }
  }

  lemma {:induction false} FirstText(s: string)
    requires s != []
    ensures Text(First(s).0) == s[..First(s).1]
  {
    if s[0] == '"' && CloseQuote(s, 1) < |s| { AfterKeyText(s, CloseQuote(s, 1), SkipBlanks(s, CloseQuote(s, 1) + 1)); }
  }

  lemma {:induction false} ParseCons(s: string)
    requires s != []
    ensures Print(Parse(s)) == Text(First(s).0) + Print(Parse(s[First(s).1..]))
  {
    PrintCons(First(s).0, Parse(s[First(s).1..]));
  }

  lemma {:induction false} Rejoin(s: string, n: nat, front: string, back: string)
    requires n <= |s| && front == s[..n] && back == s[n..]
    ensures front + back == s
  {
  }

  /** Parsing loses nothing. */
  lemma {:induction false} PrintParse(s: string)
    ensures Print(Parse(s)) == s
    decreases |s|
  {
    if s != [] {
      var (p, n) := First(s);
      PrintParse(s[n..]);
      ParseCons(s);
      FirstText(s);
      Rejoin(s, n, Text(p), s[n..]);
    }
  }

  // ---------------------------------------------------------------- scrubbed text parses the same

  /** A quote is found by looking only at what lies before it. */
  lemma {:induction false} CloseQuoteIsLocal(s: string, t: string, j: nat)
    requires j <= |s| && CloseQuote(s, j) < |s| && CloseQuote(s, j) < |t|
    requires forall x | j <= x <= CloseQuote(s, j) :: t[x] == s[x]
    ensures CloseQuote(t, j) == CloseQuote(s, j)
    decreases |s| - j
  {
    if s[j] != '"' {
      if s[j] == '\\' && j + 1 < |s| { CloseQuoteIsLocal(s, t, j + 2); } else { CloseQuoteIsLocal(s, t, j + 1); }
    }
  }

  lemma {:induction false} CloseQuoteOfPlain(t: string, j: nat, e: nat)
    requires j <= e < |t| && t[e] == '"' && forall x | j <= x < e :: t[x] != '"' && t[x] != '\\'
    ensures CloseQuote(t, j) == e
    decreases e - j
  {
    if j < e { CloseQuoteOfPlain(t, j + 1, e); }
  }

  lemma {:induction false} SkipBlanksTo(t: string, k: nat, e: nat)
    requires k <= e <= |t| && (forall x | k <= x < e :: IsBlank(t[x])) && (e < |t| ==> !IsBlank(t[e]))
    ensures SkipBlanks(t, k) == e
    decreases e - k
  {
    if k < e { SkipBlanksTo(t, k + 1, e); }
  }

  /** The two texts have the same blanks at the front and the same character after them. */
  predicate SameFront(a: string, b: string) {
    var k := SkipBlanks(a, 0);
    SkipBlanks(b, 0) == k && (k == |a| <==> k == |b|) && (k < |a| ==> b[k] == a[k])
  }

  lemma {:induction false} TextStarts(s: string, rest: string, rule: Rule)
    requires s != []
    ensures var t := Text(DropValue(First(s).0, rule)) + rest; t != [] && t[0] == s[0]
  {
    FirstText(s);
  }

  lemma {:induction false} BlankFirst(s: string, t: string)
    requires s != [] && t != [] && s[0] == t[0] && IsBlank(s[0]) && SameFront(s[1..], t[1..])
    ensures SameFront(s, t)
  {
    SkipBlanksShift(s, 1, 1);
    SkipBlanksShift(t, 1, 1);
  }

  lemma {:induction false} ScrubKeepsFront(s: string, rule: Rule)
    ensures SameFront(s, Scrubbed(s, rule))
    decreases |s|
  {
    if s != [] {
      var t, rest := Scrubbed(s, rule), Scrubbed(s[First(s).1..], rule);
      FirstThenRest(s, rule);
      TextStarts(s, rest, rule);
      if IsBlank(s[0]) {
        assert First(s) == (Copied(s[..1]), 1);
        ScrubKeepsFront(s[1..], rule);
        assert t == s[..1] + rest && t[1..] == rest;
        BlankFirst(s, t);
      }
    }
  }

  /** `t` is `a` followed by `b`. */
  predicate Joined(t: string, a: string, b: string) {
    |a| <= |t| && t[..|a|] == a && t[|a|..] == b
  }

  lemma {:induction false} JoinedIsSum(t: string, a: string, b: string)
    ensures Joined(t, a, b) <==> t == a + b
  {
    if Joined(t, a, b) { Rejoin(t, |a|, a, b); }
  }

  lemma {:induction false} FirstIsAfterKey(t: string, j: nat, k: nat)
    requires 0 < j < k <= |t| && t[0] == '"' && CloseQuote(t, 1) == j && SkipBlanks(t, j + 1) == k
    ensures First(t) == AfterKey(t, j, k)
  {
  }

  lemma {:induction false} FrontAfter(s: string, t: string, n: nat)
    requires n <= |s| && n <= |t| && SameFront(s[n..], t[n..])
    ensures var k := SkipBlanks(s, n); SkipBlanks(t, n) == k && (k == |s| <==> k == |t|) && (k < |s| ==> t[k] == s[k])
  {
    SkipBlanksShift(s, n, n);
    SkipBlanksShift(t, n, n);
  }

  /** A quoted string that is no key. */
  lemma {:induction false} FirstOfLoneString(s: string, t: string, j: nat, k: nat, rest: string)
    requires 0 < j < k <= |s| && s[0] == '"' && CloseQuote(s, 1) == j
    requires SkipBlanks(s, j + 1) == k && (k == |s| || s[k] != ':')
    requires Joined(t, s[..j + 1], rest) && SameFront(s[j + 1..], rest)
    ensures First(t) == (Copied(s[..j + 1]), j + 1)
  {
    assert t[j + 1..] == rest && t[..j + 1] == s[..j + 1];
    assert forall x | 0 <= x <= j :: t[x] == s[..j + 1][x] == s[x];
    CloseQuoteIsLocal(s, t, 1);
    FrontAfter(s, t, j + 1);
    FirstIsAfterKey(t, j, k);
  }

  lemma {:induction false} FirstIsAfterColon(t: string, j: nat, k: nat, v: nat)
    requires 0 < j < k < v <= |t| && t[0] == '"' && CloseQuote(t, 1) == j && SkipBlanks(t, j + 1) == k && t[k] == ':'
    requires SkipBlanks(t, k + 1) == v
    ensures First(t) == AfterColon(t, j, v)
  {
  }

  /** The two texts agree up to v. */
  predicate Agree(s: string, t: string, v: nat) {
    v <= |s| && v <= |t| && forall x | 0 <= x < v :: t[x] == s[x]
  }

  lemma {:induction false} AgreeSlices(s: string, t: string, v: nat)
    requires v <= |s| && v <= |t| && t[..v] == s[..v]
    ensures Agree(s, t, v)
  {
    assert forall x | 0 <= x < v :: t[x] == t[..v][x] == s[x];
  }

  /** Two texts that agree up to where the value of a key is expected. */
  lemma {:induction false} SameUpToValue(s: string, t: string, j: nat, k: nat, v: nat)
    requires 0 < j < k < v <= |s| && s[0] == '"' && CloseQuote(s, 1) == j && SkipBlanks(s, j + 1) == k && s[k] == ':'
    requires SkipBlanks(s, k + 1) == v && Agree(s, t, v) && (v < |t| ==> !IsBlank(t[v]))
    ensures First(t) == AfterColon(t, j, v)
  {
    CloseQuoteIsLocal(s, t, 1);
    SkipBlanksTo(t, j + 1, k);
    SkipBlanksTo(t, k + 1, v);
    FirstIsAfterColon(t, j, k, v);
  }

  /** A key whose value is not a string. */
  lemma {:induction false} FirstOfOtherValue(s: string, t: string, j: nat, k: nat, v: nat, rest: string)
    requires 0 < j < k < v <= |s| && s[0] == '"' && CloseQuote(s, 1) == j && SkipBlanks(s, j + 1) == k && s[k] == ':'
    requires SkipBlanks(s, k + 1) == v && (v == |s| || s[v] != '"')
    requires Joined(t, s[..v], rest) && SameFront(s[v..], rest)
    ensures First(t) == (Copied(s[..v]), v)
  {
    SkipBlanksShift(s, v, v);
    assert SkipBlanks(s, v) == v;
    assert t[..v] == s[..v] && (v < |s| ==> t[v] == rest[0] == s[v]);
    AgreeSlices(s, t, v);
    SameUpToValue(s, t, j, k, v);
  }

  lemma {:induction false} ValueEnds(s: string, t: string, v: nat, e: nat, value: string)
    requires v < e < |s| && CloseQuote(s, v + 1) == e && (Plain(value) || value == s[v + 1..e])
    requires v + 1 + |value| < |t| && t[v + 1..v + 1 + |value|] == value && t[v + 1 + |value|] == '"'
    ensures CloseQuote(t, v + 1) == v + 1 + |value|
  {
    var e1 := v + 1 + |value|;
    assert forall x | v + 1 <= x < e1 :: t[x] == t[v + 1..e1][x - v - 1] == value[x - v - 1];
    if Plain(value) {
      CloseQuoteOfPlain(t, v + 1, e1);
    } else {
      CloseQuoteIsLocal(s, t, v + 1);
    }
  }

  /** `t` starts with the text of field `p`, whose value starts at v. */
  predicate StartsWithField(t: string, p: Piece, v: nat) {
    p.Field? && |p.head| == v &&
    var e := v + 1 + |p.value|;
    e < |t| && t[..v] == p.head && t[v] == '"' && t[v + 1..e] == p.value && t[e] == '"'
  }

  lemma {:induction false} FieldText(t: string, p: Piece, rest: string)
    requires p.Field? && Joined(t, Text(p), rest)
    ensures StartsWithField(t, p, |p.head|) && |Text(p)| == |p.head| + 2 + |p.value|
  {
  }

  lemma {:induction false} FieldScan(s: string, t: string, j: nat, k: nat, v: nat, e: nat)
    requires 0 < j < k < v < |s| && s[0] == '"' && CloseQuote(s, 1) == j && SkipBlanks(s, j + 1) == k && s[k] == ':'
    requires SkipBlanks(s, k + 1) == v && Agree(s, t, v) && v < e < |t| && t[v] == '"' && CloseQuote(t, v + 1) == e
    ensures First(t) == (Field(t[..v], t[1..j], t[v + 1..e]), e + 1)
  {
    SameUpToValue(s, t, j, k, v);
  }

  /** A key with a string value. */
  lemma {:induction false} FirstOfField(s: string, t: string, j: nat, k: nat, v: nat, e: nat, p: Piece)
    requires 0 < j < k < v < e < |s| && s[0] == '"' && CloseQuote(s, 1) == j && SkipBlanks(s, j + 1) == k && s[k] == ':'
    requires SkipBlanks(s, k + 1) == v && CloseQuote(s, v + 1) == e
    requires StartsWithField(t, p, v) && p.head == s[..v]
    requires p.key == s[1..j] && (Plain(p.value) || p.value == s[v + 1..e])
    ensures First(t) == (p, |p.head| + 2 + |p.value|)
  {
    AgreeSlices(s, t, v);
    ValueEnds(s, t, v, e, p.value);
    FieldScan(s, t, j, k, v, v + 1 + |p.value|);
    assert t[1..j] == t[..v][1..j] == s[..v][1..j] == s[1..j];
  }

  /** `t` is read like `s`, its first piece being the scrubbed first piece of `s`. */
  predicate SameFirst(s: string, t: string, rule: Rule)
    requires s != []
  {
    var p := DropValue(First(s).0, rule);
    t != [] && First(t) == (p, |Text(p)|)
  }

  lemma {:induction false} FirstOfKey(s: string, t: string, j: nat, k: nat, v: nat, rest: string, rule: Rule)
    requires 0 < j < k < v <= |s| && s[0] == '"' && CloseQuote(s, 1) == j && SkipBlanks(s, j + 1) == k && s[k] == ':'
    requires SkipBlanks(s, k + 1) == v && Plain(rule.placeholder)
    requires var r := AfterColon(s, j, v); Joined(t, Text(DropValue(r.0, rule)), rest) && SameFront(s[r.1..], rest)
    ensures var p := DropValue(AfterColon(s, j, v).0, rule); t != [] && First(t) == (p, |Text(p)|)
  {
    if v == |s| || s[v] != '"' {
      FirstOfOtherValue(s, t, j, k, v, rest);
    } else if CloseQuote(s, v + 1) == |s| {
      assert t == s;
      FirstIsAfterColon(s, j, k, v);
    } else {
      FirstOfScrubbedField(s, t, j, k, v, CloseQuote(s, v + 1), rest, rule);
    }
  }

  lemma {:induction false} FirstOfShownField(s: string, t: string, j: nat, k: nat, v: nat, e: nat, p: Piece,
                                             rest: string)
    requires 0 < j < k < v < e < |s| && s[0] == '"' && CloseQuote(s, 1) == j && SkipBlanks(s, j + 1) == k && s[k] == ':'
    requires SkipBlanks(s, k + 1) == v && CloseQuote(s, v + 1) == e
    requires p.Field? && p.head == s[..v] && p.key == s[1..j] && (Plain(p.value) || p.value == s[v + 1..e])
    requires Joined(t, Text(p), rest)
    ensures t != [] && First(t) == (p, |Text(p)|)
  {
    var n := |p.head| + 2 + |p.value|;
    assert StartsWithField(t, p, v) && |Text(p)| == n by { FieldText(t, p, rest); }
    assert First(t) == (p, n) by { FirstOfField(s, t, j, k, v, e, p); }
  }

  lemma DroppedField(head: string, key: string, value: string, rule: Rule)
    requires Plain(rule.placeholder)
    ensures var p := DropValue(Field(head, key, value), rule);
            p.Field? && p.head == head && p.key == key && (Plain(p.value) || p.value == value)
  {
  }

  lemma {:induction false} FirstOfScrubbedField(s: string, t: string, j: nat, k: nat, v: nat, e: nat, rest: string,
                                                rule: Rule)
    requires 0 < j < k < v < e < |s| && s[0] == '"' && CloseQuote(s, 1) == j && SkipBlanks(s, j + 1) == k && s[k] == ':'
    requires SkipBlanks(s, k + 1) == v && CloseQuote(s, v + 1) == e && Plain(rule.placeholder)
    requires Joined(t, Text(DropValue(Field(s[..v], s[1..j], s[v + 1..e]), rule)), rest)
    ensures var p := DropValue(Field(s[..v], s[1..j], s[v + 1..e]), rule); t != [] && First(t) == (p, |Text(p)|)
  {
    DroppedField(s[..v], s[1..j], s[v + 1..e], rule);
    FirstOfShownField(s, t, j, k, v, e, DropValue(Field(s[..v], s[1..j], s[v + 1..e]), rule), rest);
  }

  lemma {:induction false} FirstOfString(s: string, t: string, j: nat, k: nat, rest: string, rule: Rule)
    requires 0 < j < k <= |s| && s[0] == '"' && CloseQuote(s, 1) == j && SkipBlanks(s, j + 1) == k
    requires Plain(rule.placeholder)
    requires Joined(t, Text(DropValue(First(s).0, rule)), rest) && SameFront(s[First(s).1..], rest)
    ensures SameFirst(s, t, rule)
  {
    FirstIsAfterKey(s, j, k);
    if k < |s| && s[k] == ':' {
      var v := SkipBlanks(s, k + 1);
      FirstIsAfterColon(s, j, k, v);
      FirstOfKey(s, t, j, k, v, rest, rule);
    } else {
      FirstOfLoneString(s, t, j, k, rest);
    }
  }

  lemma {:induction false} FirstOfPiece(s: string, t: string, rest: string, rule: Rule)
    requires s != [] && Plain(rule.placeholder)
    requires Joined(t, Text(DropValue(First(s).0, rule)), rest) && SameFront(s[First(s).1..], rest)
    ensures SameFirst(s, t, rule)
  {
    if s[0] == '"' && CloseQuote(s, 1) < |s| {
      FirstOfString(s, t, CloseQuote(s, 1), SkipBlanks(s, CloseQuote(s, 1) + 1), rest, rule);
    } else if s[0] == '"' {
      assert t == s;
    }
  }

  /** What comes out is read as the same pieces, with the placeholder under every matching key and
      nothing else changed. */
  lemma {:induction false} ScrubbedParses(s: string, rule: Rule)
    requires Plain(rule.placeholder)
    ensures Parse(Scrubbed(s, rule)) == Drop(Parse(s), rule)
    decreases |s|
  {
    if s != [] {
      var n, p := First(s).1, DropValue(First(s).0, rule);
      var t, rest := Scrubbed(s, rule), Scrubbed(s[n..], rule);
      FirstThenRest(s, rule);
      JoinedIsSum(t, Text(p), rest);
      ScrubKeepsFront(s[n..], rule);
      FirstOfPiece(s, t, rest, rule);
      ScrubbedParses(s[n..], rule);
      DropCons(First(s).0, Parse(s[n..]), rule);
    }
  }

  /** Scrubbing twice is scrubbing once. */
  lemma {:induction false} ScrubTwice(s: string, rule: Rule)
    requires Plain(rule.placeholder)
    ensures Scrubbed(Scrubbed(s, rule), rule) == Scrubbed(s, rule)
  {
    ScrubbedParses(s, rule);
    assert Drop(Drop(Parse(s), rule), rule) == Drop(Parse(s), rule);
  }

  /** So is every Drop pass, whatever keys it matches. */
  lemma {:induction false} DropTwice(s: string, matches: string -> bool)
    ensures var rule := DropRule(matches); Scrubbed(Scrubbed(s, rule), rule) == Scrubbed(s, rule)
  {
    ScrubTwice(s, DropRule(matches));
  }

  /** The text stays as it is exactly if every value under a matching key is the placeholder
      already. */
  lemma {:induction false} ChangesOnlyMatches(s: string, rule: Rule)
    requires Plain(rule.placeholder)
    ensures Scrubbed(s, rule) == s <==>
            forall p | p in Parse(s) && p.Field? && rule.matches(p.key) :: p.value == rule.placeholder
  {
    PrintParse(s);
    ScrubbedParses(s, rule);
    var ps, dropped := Parse(s), Drop(Parse(s), rule);
    if Scrubbed(s, rule) == s {
      assert forall i | 0 <= i < |ps| :: DropValue(ps[i], rule) == dropped[i];
    }
    if forall p | p in ps && p.Field? && rule.matches(p.key) :: p.value == rule.placeholder {
      assert dropped == ps;
    }
  }
}
