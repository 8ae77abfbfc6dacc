/** What the token bucket owes to a key (packages/payment-mw/ratelimit.go:77-98): a refused request costs
    nothing, a refusal means that everything supplied has been used, and a key that keeps asking gets
    its rate. */
module TokenSupply {
  import opened Prelude
  import opened TokenBucket

  // ---------------------------------------------------------------- refusals cost nothing

  function Filtered<T>(xs: seq<T>, keep: seq<bool>): seq<T>
    requires |xs| == |keep|
  {
    if xs == [] then []
    else
      var n := |xs| - 1;
      Filtered(xs[..n], keep[..n]) + if keep[n] then [xs[n]] else []
  }

  /** Only refused requests are left out. */
  ghost predicate DropsRefused(c: Limit, events: seq<Event>, keep: seq<bool>, collects: bool) {
    |keep| == |events| && forall k | 0 <= k < |events| && !keep[k] ::
      events[k].Request? && !Decisions(c, None, events, collects)[k]
  }

  /** The two buckets hold the same at every time to come. */
  ghost predicate Twins(c: Limit, s: Option<Bucket>, t: Option<Bucket>) {
    s == t || (s.Some? && t.Some? && forall at :: Level(c, s.value, at) == Level(c, t.value, at))
  }

  lemma TwinsStep(c: Limit, s: Option<Bucket>, t: Option<Bucket>, e: Event)
    requires Twins(c, s, t)
    ensures Admits(c, s, e) == Admits(c, t, e) && Twins(c, Step(c, s, e, false), Step(c, t, e, false))
  {
    if e.Request? && s != t { assert Level(c, s.value, e.at) == Level(c, t.value, e.at); }
  }

  lemma Later(c: Limit, b: Bucket, at: real, later: real)
    ensures Level(c, Bucket(Level(c, b, at), at), later) == Level(c, b, later)
  {
    Accrues(c.rate, b.last, at, later);
  }

  lemma NoTimeNoRefill(c: Limit, at: real)
    ensures Refill(c, at, at) == 0.0 && Refilled(c, None, at) == c.cap as real
  {
    Zero(c.rate, at);
  }

  lemma Zero(r: real, at: real)
    ensures (at - at) * r == 0.0
  {
  }

  lemma RefusedStep(c: Limit, s: Option<Bucket>, t: Option<Bucket>, at: real)
    requires c.cap >= 1 && Twins(c, s, t) && !Admits(c, s, Request(at))
    ensures Twins(c, Step(c, s, Request(at), false), t)
  {
    NoTimeNoRefill(c, at);
    forall later ensures Level(c, Step(c, s, Request(at), false).value, later) == Level(c, t.value, later) {
      Later(c, s.value, at, later);
    }
  }

  lemma FilteredNext<T>(xs: seq<T>, keep: seq<bool>)
    requires |xs| == |keep| && xs != []
    ensures var n := |xs| - 1;
            Filtered(xs, keep) == Filtered(xs[..n], keep[..n]) + if keep[n] then [xs[n]] else []
  {
  }

  lemma DecisionsNext(c: Limit, s: Option<Bucket>, before: seq<Event>, e: Event, collects: bool)
    ensures Decisions(c, s, before + [e], collects)
            == Decisions(c, s, before, collects) + [Admits(c, Run(c, s, before, collects), e)]
    ensures Run(c, s, before + [e], collects) == Step(c, Run(c, s, before, collects), e, collects)
  {
    assert (before + [e])[..|before|] == before;
  }

  lemma DropsRefusedBefore(c: Limit, before: seq<Event>, e: Event, keep: seq<bool>)
    requires DropsRefused(c, before + [e], keep, false)
    ensures DropsRefused(c, before, keep[..|before|], false)
    ensures keep[|before|] || (e.Request? && !Admits(c, Run(c, None, before, false), e))
  {
    DecisionsNext(c, None, before, e, false);
    assert (before + [e])[|before|] == e;
    forall k | 0 <= k < |before| && !keep[k] ensures before[k].Request? && !Decisions(c, None, before, false)[k] {
      assert (before + [e])[k] == before[k];
    }
  }

  lemma {:induction false} FilteredRun(c: Limit, events: seq<Event>, keep: seq<bool>)
    requires c.cap >= 1 && DropsRefused(c, events, keep, false)
    ensures Decisions(c, None, Filtered(events, keep), false) == Filtered(Decisions(c, None, events, false), keep)
    ensures Twins(c, Run(c, None, events, false), Run(c, None, Filtered(events, keep), false))
  {
    if events != [] {
      var n := |events| - 1;
      var before, e := events[..n], events[n];
      assert events == before + [e];
      DropsRefusedBefore(c, before, e, keep);
      FilteredRun(c, before, keep[..n]);
      FilteredStep(c, before, e, keep);
    }
  }

  lemma {:induction false} FilteredStep(c: Limit, before: seq<Event>, e: Event, keep: seq<bool>)
    requires c.cap >= 1 && |keep| == |before| + 1
    requires keep[|before|] || (e.Request? && !Admits(c, Run(c, None, before, false), e))
    requires var rest, ds := Filtered(before, keep[..|before|]), Decisions(c, None, before, false);
             Decisions(c, None, rest, false) == Filtered(ds, keep[..|before|])
             && Twins(c, Run(c, None, before, false), Run(c, None, rest, false))
    ensures var events := before + [e];
            Decisions(c, None, Filtered(events, keep), false) == Filtered(Decisions(c, None, events, false), keep)
            && Twins(c, Run(c, None, events, false), Run(c, None, Filtered(events, keep), false))
  {
    var n, events := |before|, before + [e];
    var rest, ds := Filtered(before, keep[..n]), Decisions(c, None, before, false);
    var s, t := Run(c, None, before, false), Run(c, None, rest, false);
    DecisionsNext(c, None, before, e, false);
    FilteredNext(events, keep);
    FilteredNext(ds + [Admits(c, s, e)], keep);
    assert events[..n] == before && (ds + [Admits(c, s, e)])[..n] == ds;
    if keep[n] {
      TwinsStep(c, s, t, e);
      DecisionsNext(c, None, rest, e, false);
    } else {
      assert Filtered(events, keep) == rest && e == Request(e.at);
      assert Filtered(ds + [Admits(c, s, e)], keep) == Filtered(ds, keep[..n]);
      RefusedStep(c, s, t, e.at);
    }
  }

  lemma {:induction false} NothingAdmitted(c: Limit, s: Option<Bucket>, events: seq<Event>, collects: bool, k: nat)
    requires c.cap < 1 && k < |events|
    ensures !Decisions(c, s, events, collects)[k]
  {
    var n := |events| - 1;
    if k < n { NothingAdmitted(c, s, events[..n], collects, k); }
  }

  lemma {:induction false} FilteredLength<T>(xs: seq<T>, ys: seq<bool>, keep: seq<bool>)
    requires |xs| == |keep| == |ys| && forall k | 0 <= k < |ys| :: !ys[k]
    ensures |Filtered(xs, keep)| == |Filtered(ys, keep)|
    ensures forall k | 0 <= k < |Filtered(ys, keep)| :: !Filtered(ys, keep)[k]
  {
    if xs != [] {
      var n := |xs| - 1;
      FilteredLength(xs[..n], ys[..n], keep[..n]);
    }
  }

  lemma {:induction false} FilteredIn(events: seq<Event>, keep: seq<bool>, k: nat) returns (i: nat)
    requires |events| == |keep| && k < |Filtered(events, keep)|
    ensures i < |events| && events[i] == Filtered(events, keep)[k]
  {
    var n := |events| - 1;
    if k < |Filtered(events[..n], keep[..n])| { i := FilteredIn(events[..n], keep[..n], k); } else { i := n; }
  }

  lemma {:induction false} FilteredOrdered(events: seq<Event>, keep: seq<bool>)
    requires |events| == |keep| && Ordered(events)
    ensures Ordered(Filtered(events, keep))
  {
    if events != [] {
      var n := |events| - 1;
      FilteredOrdered(events[..n], keep[..n]);
      var rest := Filtered(events[..n], keep[..n]);
      forall k | 0 <= k < |rest| ensures rest[k].at <= events[n].at { var i := FilteredIn(events[..n], keep[..n], k); }
    }
  }

  /** Leaving out refused requests, all of them or some, changes no decision on the others: without the
      collector, and with it where ten minutes refill an empty bucket. */
  lemma {:induction false} RefusalsCostNothing(c: Limit, events: seq<Event>, keep: seq<bool>, collects: bool)
    requires Sane(c) && Ordered(events) && (collects ==> c.cap as real <= 600.0 * c.rate)
    requires DropsRefused(c, events, keep, collects)
    ensures Decisions(c, None, Filtered(events, keep), collects) == Filtered(Decisions(c, None, events, collects), keep)
  {
    FilteredOrdered(events, keep);
    if c.cap as real <= 600.0 * c.rate {
      RunsAlike(c, events);
      RunsAlike(c, Filtered(events, keep));
    }
    if c.cap >= 1 {
      FilteredRun(c, events, keep);
    } else {
      var ds := Decisions(c, None, events, collects);
      forall k | 0 <= k < |ds| ensures !ds[k] { NothingAdmitted(c, None, events, collects, k); }
      FilteredLength(events, ds, keep);
      var rest := Filtered(events, keep);
      forall k | 0 <= k < |rest| ensures !Decisions(c, None, rest, collects)[k] {
        NothingAdmitted(c, None, rest, collects, k);
      }
    }
  }

  // ---------------------------------------------------------------- refusals are justified

  /** Admitted from event i of a run on. */
  function AdmittedSince(c: Limit, events: seq<Event>, i: nat, collects: bool): nat
    requires i <= |events|
  {
    Admitted(c, Run(c, None, events[..i], collects), events[i..], collects)
  }

  lemma {:induction false} AdmittedNext(c: Limit, before: seq<Event>, e: Event, i: nat, collects: bool)
    requires i <= |before|
    ensures AdmittedSince(c, before + [e], i, collects)
            == AdmittedSince(c, before, i, collects) + if Admits(c, Run(c, None, before, collects), e) then 1 else 0
  {
    var since := Run(c, None, before[..i], collects);
    assert (before + [e])[..i] == before[..i] && (before + [e])[i..] == before[i..] + [e];
    Append(c, None, before[..i], before[i..], collects);
    assert before[..i] + before[i..] == before;
    Append(c, since, before[i..], [e], collects);
    assert [e][..0] == [];
  }

  /** The bucket was full when request i came, and holds what has not been used since. */
  ghost predicate FullAt(c: Limit, events: seq<Event>, collects: bool, i: nat) {
    i < |events| && events[i].Request?
    && FullSince(c, Run(c, None, events, collects), events[i].at, AdmittedSince(c, events, i, collects))
  }

  predicate FullSince(c: Limit, s: Option<Bucket>, start: real, admitted: nat) {
    s.Some? && s.value.tokens == c.cap as real + Refill(c, start, s.value.last) - admitted as real
  }

  lemma UsesOne(c: Limit, s: Option<Bucket>, at: real, start: real, admitted: nat)
    requires FullSince(c, s, start, admitted) && Level(c, s.value, at) <= c.cap as real
    ensures var e := Request(at);
            FullSince(c, Step(c, s, e, true), start, admitted + if Admits(c, s, e) then 1 else 0)
  {
    var gained := Refill(c, s.value.last, at);
    assert Level(c, s.value, at) == s.value.tokens + gained;
    Accrues(c.rate, start, s.value.last, at);
    assert Refill(c, start, at) == Refill(c, start, s.value.last) + gained;
    assert Refilled(c, s, at) == s.value.tokens + gained;
  }

  lemma UsesFirst(c: Limit, s: Option<Bucket>, at: real)
    requires c.cap >= 1 && (s.None? || Level(c, s.value, at) >= c.cap as real)
    ensures Admits(c, s, Request(at)) && FullSince(c, Step(c, s, Request(at), true), at, 1)
  {
    NoTimeNoRefill(c, at);
    assert Refilled(c, s, at) == c.cap as real;
  }

  lemma {:induction false} SomeTimeFull(c: Limit, events: seq<Event>, collects: bool) returns (i: nat)
    requires c.cap >= 1
    ensures Run(c, None, events, collects).Some? ==> FullAt(c, events, collects, i)
  {
    i := 0;
    if events != [] {
      var n := |events| - 1;
      i := SomeTimeFull(c, events[..n], collects);
      i := FullNext(c, events[..n], events[n], collects, i);
      assert events[..n] + [events[n]] == events;
    }
  }

  lemma {:induction false} FullNext(c: Limit, before: seq<Event>, e: Event, collects: bool, i0: nat) returns (i: nat)
    requires c.cap >= 1 && (Run(c, None, before, collects).Some? ==> FullAt(c, before, collects, i0))
    ensures Run(c, None, before + [e], collects).Some? ==> FullAt(c, before + [e], collects, i)
  {
    var s, events := Run(c, None, before, collects), before + [e];
    assert events[..|before|] == before;
    i := i0;
    if e.Request? && (s.None? || Level(c, s.value, e.at) >= c.cap as real) {
      i := |before|;
      AdmittedNext(c, before, e, i, collects);
      assert before[i..] == [];
      UsesFirst(c, s, e.at);
    } else if s.Some? {
      AdmittedNext(c, before, e, i, collects);
      if e.Request? { UsesOne(c, s, e.at, before[i].at, AdmittedSince(c, before, i, collects)); }
    }
  }

  /** Every refusal is justified, in every run: since some earlier request, at which the bucket was full,
      the key has been admitted more often than a full bucket and the refill since then, less one, would
      allow. With WindowBound it has then had all it can have. */
  lemma {:induction false} RefusalIsJustified(c: Limit, before: seq<Event>, at: real, collects: bool) returns (i: nat)
    requires c.cap >= 1 && !Admits(c, Run(c, None, before, collects), Request(at))
    ensures i < |before| && before[i].Request?
    ensures AdmittedSince(c, before, i, collects) as real > c.cap as real + Refill(c, before[i].at, at) - 1.0
  {
    i := SomeTimeFull(c, before, collects);
    var s := Run(c, None, before, collects);
    if s.None? {
      UsesFirst(c, s, at);
    } else {
      Accrues(c.rate, before[i].at, s.value.last, at);
    }
  }

  // ---------------------------------------------------------------- a key that keeps asking

  /** Requests only, and never so far apart that more than `most` tokens are refilled in between. */
  predicate Polls(c: Limit, events: seq<Event>, most: real) {
    (forall i | 0 <= i < |events| :: events[i].Request?)
    && forall i, j | 0 <= i < j == i + 1 < |events| :: 0.0 <= Refill(c, events[i].at, events[j].at) <= most
  }

  lemma PollStep(c: Limit, b: Bucket, at: real, start: real, held: real, admitted: nat)
    requires c.cap >= 2 && b.tokens <= c.cap as real - 1.0 && Refill(c, b.last, at) <= 1.0
    requires admitted as real + b.tokens == held + Refill(c, start, b.last)
    ensures var e := Request(at);
            var t, n := Step(c, Some(b), e, true).value, admitted + if Admits(c, Some(b), e) then 1 else 0;
            t.last == at && t.tokens <= c.cap as real - 1.0 && n as real + t.tokens == held + Refill(c, start, at)
  {
    var gained := Refill(c, b.last, at);
    assert Level(c, b, at) == b.tokens + gained;
    assert Refilled(c, Some(b), at) == b.tokens + gained;
    Accrues(c.rate, start, b.last, at);
    assert Refill(c, start, at) == Refill(c, start, b.last) + gained;
  }

  lemma {:induction false} PollFirst(c: Limit, s: Option<Bucket>, e: Event, collects: bool)
    requires c.cap >= 2 && e.Request?
    ensures Admitted(c, s, [e], collects) == if Admits(c, s, e) then 1 else 0
    ensures Run(c, s, [e], collects) == Step(c, s, e, true)
    ensures Step(c, s, e, true).value.tokens <= c.cap as real - 1.0
  {
    assert [e][..0] == [];
  }

  /** A key that keeps asking loses nothing of its supply: what it has been admitted and what is left are
      together what the bucket held at the first request and the refill since then. */
  lemma {:induction false} PollingLosesNothing(c: Limit, s: Option<Bucket>, events: seq<Event>, collects: bool)
    requires c.cap >= 2 && Polls(c, events, 1.0) && events != []
    ensures var t, n := Run(c, s, events, collects), |events| - 1;
            && t.Some? && t.value.last == events[n].at && t.value.tokens <= c.cap as real - 1.0
            && Admitted(c, s, events, collects) as real + t.value.tokens
               == Refilled(c, s, events[0].at) + Refill(c, events[0].at, events[n].at)
  {
    var n := |events| - 1;
    var before, e := events[..n], events[n];
    if n == 0 {
      assert events == [e];
      PollFirst(c, s, e, collects);
      NoTimeNoRefill(c, e.at);
    } else {
      PollsBefore(c, events, 1.0);
      PollingLosesNothing(c, s, before, collects);
      PollStep(c, Run(c, s, before, collects).value, e.at, events[0].at, Refilled(c, s, events[0].at),
               Admitted(c, s, before, collects));
    }
  }

  lemma PollsBefore(c: Limit, events: seq<Event>, most: real)
    requires Polls(c, events, most) && |events| >= 2
    ensures var n := |events| - 1;
            && Polls(c, events[..n], most) && events[n].Request?
            && 0.0 <= Refill(c, events[n - 1].at, events[n].at) <= most
  {
  }

  /** So with at least two tokens of capacity a key that asks at least as often as tokens come is
      admitted, from a full bucket, at least once and at its rate. */
  lemma {:induction false} PollingGetsItsRate(c: Limit, events: seq<Event>, collects: bool)
    requires c.cap >= 2 && Polls(c, events, 1.0) && events != []
    ensures Admitted(c, None, events, collects) as real >= 1.0 + Refill(c, events[0].at, events[|events| - 1].at)
  {
    PollingLosesNothing(c, None, events, collects);
    NoTimeNoRefill(c, events[0].at);
  }

  /** n admissions, the gaps lost with them and the tokens left make up the supply. */
  predicate Covered(n: nat, most: real, tokens: real, supply: real) {
    n as real * (1.0 + most) + tokens >= supply
  }

  lemma Distributes(a: real, x: real)
    ensures (a + 1.0) * x == a * x + x
  {
  }

  lemma CoverOneMore(n: nat, most: real, tokens: real, gained: real, supply: real, left: real)
    requires Covered(n, most, tokens, supply)
    ensures left >= tokens + gained ==> Covered(n, most, left, supply + gained)
    ensures left >= tokens + gained - most - 1.0 ==> Covered(n + 1, most, left, supply + gained)
  {
    Distributes(n as real, 1.0 + most);
    assert (n + 1) as real == n as real + 1.0;
  }

  lemma OverflowStep(c: Limit, b: Bucket, at: real, start: real, most: real, held: real, admitted: nat)
    requires c.cap >= 1 && most >= 0.0 && b.tokens <= c.cap as real && Refill(c, b.last, at) <= most
    requires Covered(admitted, most, b.tokens, held + Refill(c, start, b.last))
    ensures var e := Request(at);
            var t, n := Step(c, Some(b), e, true).value, admitted + if Admits(c, Some(b), e) then 1 else 0;
            t.last == at && t.tokens <= c.cap as real && Covered(n, most, t.tokens, held + Refill(c, start, at))
  {
    var gained := Refill(c, b.last, at);
    assert Level(c, b, at) == b.tokens + gained;
    Accrues(c.rate, start, b.last, at);
    assert Refill(c, start, at) == Refill(c, start, b.last) + gained;
    CoverOneMore(admitted, most, b.tokens, gained, held + Refill(c, start, b.last),
                 Step(c, Some(b), Request(at), true).value.tokens);
  }

  lemma CoverFirst(most: real, cap: real)
    requires most >= 0.0
    ensures Covered(1, most, cap - 1.0, cap)
  {
    assert 1 as real * (1.0 + most) == 1.0 + most;
  }

  /** With any capacity, and however seldom it asks: each admission stands for one token and at most the
      supply of one gap, which may have overflowed. */
  lemma {:induction false} EachAdmissionLosesOneGap(c: Limit, events: seq<Event>, most: real, collects: bool)
    requires c.cap >= 1 && most >= 0.0 && Polls(c, events, most) && events != []
    ensures var t, n := Run(c, None, events, collects), |events| - 1;
            && t.Some? && t.value.last == events[n].at && t.value.tokens <= c.cap as real
            && Covered(Admitted(c, None, events, collects), most, t.value.tokens,
                       c.cap as real + Refill(c, events[0].at, events[n].at))
  {
    var n := |events| - 1;
    var before, e := events[..n], events[n];
    if n == 0 {
      assert events == [e] && [e][..0] == [];
      NoTimeNoRefill(c, e.at);
      CoverFirst(most, c.cap as real);
      assert Run(c, None, events, collects).value.tokens == c.cap as real - 1.0;
      assert Admitted(c, None, events, collects) == 1;
    } else {
      PollsBefore(c, events, most);
      EachAdmissionLosesOneGap(c, before, most, collects);
      OverflowStep(c, Run(c, None, before, collects).value, e.at, events[0].at, most, c.cap as real,
                   Admitted(c, None, before, collects));
    }
  }

  /** And whoever waits for one token to come is admitted, whatever was refused before. */
  lemma {:induction false} WaitingIsServed(c: Limit, before: seq<Event>, at: real, collects: bool)
    requires Sane(c) && c.cap >= 1 && Ordered(before + [Request(at)])
    requires var s := Run(c, None, before, collects); s.Some? ==> Refill(c, s.value.last, at) >= 1.0
    ensures Admits(c, Run(c, None, before, collects), Request(at))
  {
    StartsSound(c, before, Request(at), collects);
    var s := Run(c, None, before, collects);
    if s.None? {
      UsesFirst(c, s, at);
    } else {
      assert Level(c, s.value, at) == s.value.tokens + Refill(c, s.value.last, at);
    }
  }
}
