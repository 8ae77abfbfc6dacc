/** The token bucket of packages/payment-mw/ratelimit.go, over exact reals and seconds. */
module TokenBucket {
  import opened Prelude

  datatype Limit = Limit(cap: int, rate: real)
  datatype Bucket = Bucket(tokens: real, last: real)

  /** What happens to one key: a request, or a pass of the collector, which drops a bucket that has
      not been touched for ten minutes. */
  datatype Event = Request(at: real) | Collect(at: real)

  function Min(a: real, b: real): real { if a < b then a else b }

  /** What a bucket would hold at `at` if it could not overflow. */
  function Level(c: Limit, b: Bucket, at: real): real { b.tokens + (at - b.last) * c.rate }

  /** The tokens after the refill at `at`. */
  function Refilled(c: Limit, s: Option<Bucket>, at: real): real {
    Min(c.cap as real, Level(c, if s.Some? then s.value else Bucket(c.cap as real, at), at))
  }

  /** `collects` is false for a limiter without the collector. */
  function Step(c: Limit, s: Option<Bucket>, e: Event, collects: bool): Option<Bucket> {
    match e
    case Request(at) =>
      var tokens := Refilled(c, s, at);
      Some(Bucket(if tokens < 1.0 then tokens else tokens - 1.0, at))
    case Collect(at) =>
      if collects && s.Some? && s.value.last < at - 600.0 then None else s
  }

  predicate Admits(c: Limit, s: Option<Bucket>, e: Event) {
    e.Request? && Refilled(c, s, e.at) >= 1.0
  }

  function Run(c: Limit, s: Option<Bucket>, events: seq<Event>, collects: bool): Option<Bucket> {
    if events == [] then s else Step(c, Run(c, s, events[..|events| - 1], collects), events[|events| - 1], collects)
  }

  function Decisions(c: Limit, s: Option<Bucket>, events: seq<Event>, collects: bool): (ds: seq<bool>)
    ensures |ds| == |events|
  {
    if events == [] then []
    else
      var before := events[..|events| - 1];
      Decisions(c, s, before, collects) + [Admits(c, Run(c, s, before, collects), events[|events| - 1])]
  }

  function Admitted(c: Limit, s: Option<Bucket>, events: seq<Event>, collects: bool): nat {
    if events == [] then 0
    else
      var before := events[..|events| - 1];
      Admitted(c, s, before, collects) + if Admits(c, Run(c, s, before, collects), events[|events| - 1]) then 1 else 0
  }

  predicate Ordered(events: seq<Event>) {
    forall i, j | 0 <= i <= j < |events| :: events[i].at <= events[j].at
  }

  predicate Sane(c: Limit) { c.cap >= 0 && c.rate >= 0.0 }

  predicate BucketInv(c: Limit, s: Option<Bucket>, now: real) {
    s.Some? ==> 0.0 <= s.value.tokens <= c.cap as real && s.value.last <= now
  }

  // ---------------------------------------------------------------- how much gets through

  lemma NonNegative(a: real, b: real)
    requires a >= 0.0 && b >= 0.0
    ensures a * b >= 0.0
  {
  }

  lemma Scaled(a: real, b: real, r: real)
    requires a <= b && r >= 0.0
    ensures a * r <= b * r
  {
    NonNegative(b - a, r);
    assert (b - a) * r == b * r - a * r;
  }

  lemma LevelRises(c: Limit, b: Bucket, at: real)
    requires c.rate >= 0.0 && b.last <= at
    ensures Level(c, b, at) >= b.tokens
    ensures b.last == at ==> Level(c, b, at) == b.tokens
  {
    Scaled(0.0, at - b.last, c.rate);
  }

  /** What a bucket gains while it is left alone. */
  lemma LevelAfter(c: Limit, b: Bucket, at: real, wait: real)
    requires c.rate >= 0.0
    ensures at - b.last >= wait ==> Level(c, b, at) >= b.tokens + wait * c.rate
    ensures at - b.last == wait ==> Level(c, b, at) == b.tokens + wait * c.rate
  {
    var gained := (at - b.last) * c.rate;
    assert Level(c, b, at) == b.tokens + gained;
    if at - b.last >= wait { Scaled(wait, at - b.last, c.rate); }
  }

  lemma RefillBounds(c: Limit, s: Option<Bucket>, at: real)
    requires Sane(c) && BucketInv(c, s, at)
    ensures 0.0 <= Refilled(c, s, at) <= c.cap as real
    ensures s.None? ==> Refilled(c, s, at) == c.cap as real
  {
    LevelRises(c, if s.Some? then s.value else Bucket(c.cap as real, at), at);
  }

  lemma StepKeeps(c: Limit, s: Option<Bucket>, e: Event, collects: bool)
    requires Sane(c) && BucketInv(c, s, e.at)
    ensures BucketInv(c, Step(c, s, e, collects), e.at)
  {
    RefillBounds(c, s, e.at);
  }

  lemma {:induction false} RunKeeps(c: Limit, s: Option<Bucket>, events: seq<Event>, collects: bool)
    requires Sane(c) && Ordered(events) && (events != [] ==> BucketInv(c, s, events[0].at))
    ensures events != [] ==> BucketInv(c, Run(c, s, events, collects), events[|events| - 1].at)
  {
    if events != [] {
      var before := events[..|events| - 1];
      RunKeeps(c, s, before, collects);
      StepKeeps(c, Run(c, s, before, collects), events[|events| - 1], collects);
    }
  }

  /** A full bucket and a refill at `rate` for that time suffice for so many requests. */
  predicate Fits(c: Limit, rate: real, time: real, admitted: nat) {
    admitted as real <= c.cap as real + time * rate
  }

  /** What is added to a bucket between `a` and `b`. */
  function Refill(c: Limit, a: real, b: real): real { (b - a) * c.rate }

  predicate GainsEnough(c: Limit, x: real, y: real, a: real, b: real, collects: bool) {
    x <= y && x + Refill(c, a, b) <= y && (collects && a < b - 600.0 ==> x + c.cap as real <= y)
  }

  /** `gain` counts at least what a key gains from `start` on: its refill and, where the collector
      passes, a full bucket for every bucket that was left alone for ten minutes. */
  ghost predicate Covers(c: Limit, gain: real -> real, start: real, collects: bool) {
    && gain(start) == 0.0
    && forall a, b {:trigger Refill(c, a, b)} | start <= a <= b :: GainsEnough(c, gain(a), gain(b), a, b, collects)
  }

  /** After `admitted` requests since `start`, the tokens left are no more than a full bucket and the
      gain since then would leave; no bucket counts as a full one. */
  predicate Spent(c: Limit, gain: real -> real, s: Option<Bucket>, start: real, now: real, admitted: nat) {
    match s
    case None => admitted as real <= gain(now)
    case Some(b) =>
      admitted > 0 ==> start <= b.last && b.tokens <= c.cap as real + gain(b.last) - admitted as real
  }

  lemma StepSpends(c: Limit, gain: real -> real, s: Option<Bucket>, e: Event, start: real, admitted: nat,
                   collects: bool)
    requires Sane(c) && Covers(c, gain, start, collects) && start <= e.at && BucketInv(c, s, e.at)
    requires Spent(c, gain, s, start, e.at, admitted)
    ensures Spent(c, gain, Step(c, s, e, collects), start, e.at, admitted + if Admits(c, s, e) then 1 else 0)
  {
    assert GainsEnough(c, gain(start), gain(e.at), start, e.at, collects) by { var _ := Refill(c, start, e.at); }
    if s.Some? {
      assert Level(c, s.value, e.at) == s.value.tokens + Refill(c, s.value.last, e.at);
    }
  }

  lemma SpentBounds(c: Limit, gain: real -> real, s: Option<Bucket>, start: real, now: real, admitted: nat,
                    collects: bool)
    requires Sane(c) && Covers(c, gain, start, collects) && start <= now
    requires BucketInv(c, s, now) && Spent(c, gain, s, start, now, admitted)
    ensures admitted as real <= c.cap as real + gain(now)
  {
    assert GainsEnough(c, gain(start), gain(now), start, now, collects) by { var _ := Refill(c, start, now); }
    if s.Some? && start <= s.value.last {
      var last := s.value.last;
      assert GainsEnough(c, gain(last), gain(now), last, now, collects) by { var _ := Refill(c, last, now); }
    }
  }

  lemma {:induction false} RunSpends(c: Limit, gain: real -> real, s: Option<Bucket>, events: seq<Event>,
                                     collects: bool)
    requires Sane(c) && Ordered(events) && events != [] && BucketInv(c, s, events[0].at)
    requires Covers(c, gain, events[0].at, collects)
    ensures var start, now := events[0].at, events[|events| - 1].at;
            && BucketInv(c, Run(c, s, events, collects), now)
            && Spent(c, gain, Run(c, s, events, collects), start, now, Admitted(c, s, events, collects))
            && Admitted(c, s, events, collects) as real <= c.cap as real + gain(now)
  {
    var before, e, start := events[..|events| - 1], events[|events| - 1], events[0].at;
    var s1, admitted := Run(c, s, before, collects), Admitted(c, s, before, collects);
    if before == [] {
      assert s1 == s && admitted == 0;
    } else {
      RunSpends(c, gain, s, before, collects);
      var last := before[|before| - 1].at;
      assert GainsEnough(c, gain(last), gain(e.at), last, e.at, collects) by { var _ := Refill(c, last, e.at); }
    }
    StepKeeps(c, s1, e, collects);
    StepSpends(c, gain, s1, e, start, admitted, collects);
    SpentBounds(c, gain, Step(c, s1, e, collects), start, e.at, Admitted(c, s, events, collects), collects);
  }

  lemma Accrues(rate: real, a: real, b: real, d: real)
    ensures (b - a) * rate + (d - b) * rate == (d - a) * rate
  {
  }

  function GainAt(rate: real, start: real): real -> real { at => (at - start) * rate }

  lemma RateIsCovered(a: real, b: real, time: real)
    requires a <= b && time >= 0.0
    ensures time * a <= time * b
  {
    Scaled(a, b, time);
    assert a * time == time * a && b * time == time * b;
  }

  lemma Fills(tokens: real, idle: real, rate: real, cap: real)
    requires tokens >= 0.0 && rate >= 0.0 && idle >= 600.0 && cap <= 600.0 * rate
    ensures tokens + idle * rate >= cap
  {
    Scaled(600.0, idle, rate);
  }

  /** What time b - a adds to x at `rate` is enough. */
  lemma AddsEnough(c: Limit, rate: real, x: real, a: real, b: real, time: real, collects: bool)
    requires Sane(c) && c.rate <= rate && (collects ==> c.cap as real <= 600.0 * rate) && a <= b && time == b - a
    ensures GainsEnough(c, x, x + time * rate, a, b, collects)
  {
    NonNegative(time, c.rate);
    RateIsCovered(c.rate, rate, time);
    assert Refill(c, a, b) == time * c.rate;
    if time >= 600.0 { Fills(0.0, time, rate, 600.0 * rate); }
  }

  lemma GainIsEnough(c: Limit, rate: real, start: real, a: real, b: real, collects: bool)
    requires Sane(c) && c.rate <= rate && (collects ==> c.cap as real <= 600.0 * rate) && a <= b
    ensures GainsEnough(c, (a - start) * rate, (b - start) * rate, a, b, collects)
  {
    AddsEnough(c, rate, (a - start) * rate, a, b, b - a, collects);
    Accrues(rate, start, a, b);
  }

  lemma GainCovers(c: Limit, rate: real, start: real, collects: bool)
    requires Sane(c) && c.rate <= rate && (collects ==> c.cap as real <= 600.0 * rate)
    ensures Covers(c, GainAt(rate, start), start, collects)
  {
    var gain := GainAt(rate, start);
    assert gain(start) == 0.0;
    forall a, b | start <= a <= b ensures GainsEnough(c, gain(a), gain(b), a, b, collects) {
      GainIsEnough(c, rate, start, a, b, collects);
    }
  }

  function Length(window: seq<Event>): real
    requires window != []
  {
    window[|window| - 1].at - window[0].at
  }

  lemma FitsByGain(c: Limit, rate: real, gain: real -> real, events: seq<Event>, admitted: nat)
    requires events != [] && gain == GainAt(rate, events[0].at)
    requires admitted as real <= c.cap as real + gain(events[|events| - 1].at)
    ensures Fits(c, rate, Length(events), admitted)
  {
  }

  lemma {:induction false} RunGains(c: Limit, gain: real -> real, s: Option<Bucket>, events: seq<Event>, collects: bool)
    requires Sane(c) && Ordered(events) && events != [] && BucketInv(c, s, events[0].at)
    requires Covers(c, gain, events[0].at, collects)
    ensures Admitted(c, s, events, collects) as real <= c.cap as real + gain(events[|events| - 1].at)
  {
    RunSpends(c, gain, s, events, collects);
  }

  /** So much is admitted in a run from any sound bucket, if `rate` is high enough. */
  lemma {:induction false} RunFits(c: Limit, rate: real, s: Option<Bucket>, events: seq<Event>, collects: bool)
    requires Sane(c) && Ordered(events) && events != [] && BucketInv(c, s, events[0].at)
    requires c.rate <= rate && (collects ==> c.cap as real <= 600.0 * rate)
    ensures Fits(c, rate, Length(events), Admitted(c, s, events, collects))
  {
    var gain := GainAt(rate, events[0].at);
    GainCovers(c, rate, events[0].at, collects);
    RunGains(c, gain, s, events, collects);
    FitsByGain(c, rate, gain, events, Admitted(c, s, events, collects));
  }

  lemma {:induction false} StartsSound(c: Limit, before: seq<Event>, next: Event, collects: bool)
    requires Sane(c) && Ordered(before + [next])
    ensures BucketInv(c, Run(c, None, before, collects), next.at)
  {
    assert forall i | 0 <= i < |before| :: (before + [next])[i] == before[i];
    RunKeeps(c, None, before, collects);
    if before != [] { assert (before + [next])[|before| - 1].at <= (before + [next])[|before|].at; }
  }

  lemma PartsOrdered(before: seq<Event>, window: seq<Event>)
    requires Ordered(before + window) && window != []
    ensures Ordered(window) && Ordered(before + [window[0]])
  {
    var all := before + window;
    assert forall i | 0 <= i < |window| :: all[|before| + i] == window[i];
    assert forall i | 0 <= i <= |before| :: all[i] == (before + [window[0]])[i];
  }

  /** What a key can gain per second in the long run: its rate, or, where the collector passes, a full
      bucket every ten minutes if that is more. */
  function LongRunRate(c: Limit, collects: bool): real {
    if collects && c.cap as real > 600.0 * c.rate then c.cap as real / 600.0 else c.rate
  }

  /** The requests of a stretch of a run, which begins anyhow, that are admitted. */
  function AdmittedIn(c: Limit, before: seq<Event>, window: seq<Event>, collects: bool): nat {
    Admitted(c, Run(c, None, before, collects), window, collects)
  }

  /** However a run begins, in any stretch of it at most the capacity and what is gained in that time
      are admitted: with the collector or without. */
  lemma {:induction false} WindowBound(c: Limit, before: seq<Event>, window: seq<Event>, collects: bool)
    requires Sane(c) && Ordered(before + window) && window != []
    ensures Fits(c, LongRunRate(c, collects), Length(window), AdmittedIn(c, before, window, collects))
  {
    PartsOrdered(before, window);
    StartsSound(c, before, window[0], collects);
    RunFits(c, LongRunRate(c, collects), Run(c, None, before, collects), window, collects);
  }

  // ---------------------------------------------------------------- the collector is invisible

  /** Without a bucket, or with one that is full by now, a key is treated alike. */
  predicate AsIfFull(c: Limit, s: Option<Bucket>, now: real) {
    s.Some? ==> s.value.last <= now && Level(c, s.value, now) >= c.cap as real
  }

  predicate Alike(c: Limit, collected: Option<Bucket>, kept: Option<Bucket>, now: real) {
    collected == kept || (collected.None? && AsIfFull(c, kept, now))
  }

  lemma StaysFull(c: Limit, s: Option<Bucket>, now: real, later: real)
    requires Sane(c) && AsIfFull(c, s, now) && now <= later
    ensures AsIfFull(c, s, later)
  {
    if s.Some? {
      NonNegative(later - now, c.rate);
      Accrues(c.rate, s.value.last, now, later);
    }
  }

  lemma IdleBucketIsFull(c: Limit, s: Option<Bucket>, at: real)
    requires Sane(c) && c.cap as real <= 600.0 * c.rate && BucketInv(c, s, at) && s.Some? && s.value.last < at - 600.0
    ensures AsIfFull(c, s, at)
  {
    var idle := at - s.value.last;
    Fills(s.value.tokens, idle, c.rate, c.cap as real);
    assert Level(c, s.value, at) == s.value.tokens + idle * c.rate;
  }

  lemma StepAlike(c: Limit, collected: Option<Bucket>, kept: Option<Bucket>, e: Event, now: real)
    requires Sane(c) && c.cap as real <= 600.0 * c.rate && now <= e.at
    requires BucketInv(c, kept, now) && Alike(c, collected, kept, now)
    ensures Admits(c, collected, e) == Admits(c, kept, e)
    ensures Alike(c, Step(c, collected, e, true), Step(c, kept, e, false), e.at)
  {
    if collected != kept { StaysFull(c, kept, now, e.at); }
    if e.Collect? && kept.Some? && kept.value.last < e.at - 600.0 { IdleBucketIsFull(c, kept, e.at); }
  }

  lemma {:induction false} RunsAlike(c: Limit, events: seq<Event>)
    requires Sane(c) && c.cap as real <= 600.0 * c.rate && Ordered(events)
    ensures Decisions(c, None, events, true) == Decisions(c, None, events, false)
    ensures events == [] ==> Run(c, None, events, true) == Run(c, None, events, false)
    ensures events != [] ==> Alike(c, Run(c, None, events, true), Run(c, None, events, false), events[|events| - 1].at)
  {
    if events != [] {
      var before, e := events[..|events| - 1], events[|events| - 1];
      RunsAlike(c, before);
      RunKeeps(c, None, before, false);
      StepAlike(c, Run(c, None, before, true), Run(c, None, before, false), e,
                if before == [] then e.at else before[|before| - 1].at);
    }
  }

  // ---------------------------------------------------------------- and otherwise it is not

  function Burst(at: real, n: nat): seq<Event> {
    if n == 0 then [] else Burst(at, n - 1) + [Request(at)]
  }

  lemma RefilledNow(c: Limit, b: Bucket)
    ensures Refilled(c, Some(b), b.last) == Min(c.cap as real, b.tokens)
  {
    assert (b.last - b.last) * c.rate == 0.0;
  }

  /** A burst of n requests at the moment the bucket holds at least n tokens is admitted. */
  lemma {:induction false} BurstDrains(c: Limit, s: Option<Bucket>, at: real, n: nat, collects: bool)
    requires Refilled(c, s, at) >= n as real
    ensures n > 0 ==> Run(c, s, Burst(at, n), collects) == Some(Bucket(Refilled(c, s, at) - n as real, at))
    ensures Admitted(c, s, Burst(at, n), collects) == n
  {
    if n > 0 {
      var before := Burst(at, n - 1);
      assert Burst(at, n) == before + [Request(at)] && Burst(at, n)[..|before|] == before &&
             |Burst(at, n)| == |before| + 1;
      BurstDrains(c, s, at, n - 1, collects);
      if n > 1 { RefilledNow(c, Run(c, s, before, collects).value); }
    }
  }

  lemma {:induction false} Append(c: Limit, s: Option<Bucket>, a: seq<Event>, b: seq<Event>, collects: bool)
    ensures Run(c, s, a + b, collects) == Run(c, Run(c, s, a, collects), b, collects)
    ensures Admitted(c, s, a + b, collects)
              == Admitted(c, s, a, collects) + Admitted(c, Run(c, s, a, collects), b, collects)
  {
    if b == [] {
      assert a + b == a;
    } else {
      Append(c, s, a, b[..|b| - 1], collects);
      assert (a + b)[..|a + b| - 1] == a + b[..|b| - 1];
    }
  }

  function Count(ds: seq<bool>): nat {
    if ds == [] then 0 else Count(ds[..|ds| - 1]) + if ds[|ds| - 1] then 1 else 0
  }

  lemma {:induction false} AdmittedIsCount(c: Limit, s: Option<Bucket>, events: seq<Event>, collects: bool)
    ensures Admitted(c, s, events, collects) == Count(Decisions(c, s, events, collects))
  {
    if events != [] {
      AdmittedIsCount(c, s, events[..|events| - 1], collects);
      var ds := Decisions(c, s, events[..|events| - 1], collects);
      var d := Admits(c, Run(c, s, events[..|events| - 1], collects), events[|events| - 1]);
      assert (ds + [d])[..|ds|] == ds;
    }
  }

  lemma {:induction false} BurstShape(at: real, n: nat)
    ensures |Burst(at, n)| == n && forall e | e in Burst(at, n) :: e.at == at
  {
    if n > 0 { BurstShape(at, n - 1); }
  }

  /** Spend the full bucket at time 0, let the collector pass at `t`, and spend again. */
  function Twice(c: Limit, t: real): seq<Event>
    requires c.cap >= 0
  {
    Burst(0.0, c.cap) + ([Collect(t)] + Burst(t, c.cap))
  }

  lemma TwiceIsOrdered(c: Limit, t: real)
    requires c.cap >= 1 && t > 0.0
    ensures Ordered(Twice(c, t)) && Twice(c, t) != []
    ensures Twice(c, t)[0].at == 0.0 && Twice(c, t)[|Twice(c, t)| - 1].at == t
  {
    BurstShape(0.0, c.cap);
    BurstShape(t, c.cap);
    var a, b, all := Burst(0.0, c.cap), Burst(t, c.cap), Twice(c, t);
    forall i | 0 <= i < |all| ensures all[i].at == if i < c.cap then 0.0 else t {
      if i < c.cap {
        assert all[i] == a[i] && a[i] in a;
      } else if i > c.cap {
        assert all[i] == b[i - c.cap - 1] && b[i - c.cap - 1] in b;
      }
    }
  }

  /** With the collector both bursts get through. */
  lemma {:induction false} TwiceWithCollector(c: Limit, t: real)
    requires Sane(c) && c.cap >= 1 && t > 600.0
    ensures Admitted(c, None, Twice(c, t), true) == 2 * c.cap
  {
    var a, b := Burst(0.0, c.cap), Burst(t, c.cap);
    RefillBounds(c, None, 0.0);
    RefillBounds(c, None, t);
    BurstDrains(c, None, 0.0, c.cap, true);
    BurstDrains(c, None, t, c.cap, true);
    Append(c, None, a, [Collect(t)] + b, true);
    Append(c, Run(c, None, a, true), [Collect(t)], b, true);
    CollectDrops(c, Run(c, None, a, true), t);
  }

  lemma {:induction false} CollectDrops(c: Limit, s: Option<Bucket>, t: real)
    requires s.Some? && s.value.last < t - 600.0
    ensures Run(c, s, [Collect(t)], true) == None && Admitted(c, s, [Collect(t)], true) == 0
  {
    assert [Collect(t)][..0] == [];
  }

  lemma ShortlyAfter(c: Limit, rate: real) returns (t: real)
    requires rate >= 0.0 && c.cap as real > 600.0 * rate
    ensures t > 600.0 && t * rate < c.cap as real
  {
    var spare := c.cap as real - 600.0 * rate;
    var d := spare / (2.0 * (rate + 1.0));
    assert d * (2.0 * (rate + 1.0)) == spare;
    assert d > 0.0 by { if d <= 0.0 { NonNegative(-d, 2.0 * (rate + 1.0)); } }
    t := 600.0 + d;
    assert d * (2.0 * (rate + 1.0)) == 2.0 * (d * rate) + 2.0 * d;
    NonNegative(d, rate);
    assert t * rate == 600.0 * rate + d * rate;
  }

  lemma {:induction false} TwiceWithoutCollector(c: Limit, t: real)
    requires Sane(c) && c.cap >= 1 && t > 600.0 && t * c.rate < c.cap as real
    ensures Admitted(c, None, Twice(c, t), false) < 2 * c.cap
  {
    TwiceIsOrdered(c, t);
    RunFits(c, c.rate, None, Twice(c, t), false);
    FitsTwice(c, c.rate, t, Admitted(c, None, Twice(c, t), false));
  }

  lemma FitsTwice(c: Limit, rate: real, t: real, admitted: nat)
    requires t * rate < c.cap as real && Fits(c, rate, t - 0.0, admitted)
    ensures admitted < 2 * c.cap
  {
    assert t - 0.0 == t;
  }

  lemma {:induction false} DecisionsDiffer(c: Limit, events: seq<Event>)
    requires Admitted(c, None, events, true) != Admitted(c, None, events, false)
    ensures Decisions(c, None, events, true) != Decisions(c, None, events, false)
  {
    AdmittedIsCount(c, None, events, true);
    AdmittedIsCount(c, None, events, false);
  }

  lemma {:induction false} CollectorShows(c: Limit)
    requires Sane(c) && c.cap >= 1 && c.cap as real > 600.0 * c.rate
    ensures exists events :: Ordered(events) && Decisions(c, None, events, true) != Decisions(c, None, events, false)
  {
    var t := ShortlyAfter(c, c.rate);
    TwiceIsOrdered(c, t);
    TwiceWithCollector(c, t);
    TwiceWithoutCollector(c, t);
    DecisionsDiffer(c, Twice(c, t));
  }

  /** Dropping idle buckets changes no decision in any run exactly if ten minutes refill an empty
      bucket. */
  lemma {:induction false} CollectorIsInvisibleIff(c: Limit)
    requires Sane(c)
    ensures (forall events | Ordered(events) :: Decisions(c, None, events, true) == Decisions(c, None, events, false))
            <==> c.cap as real <= 600.0 * c.rate
  {
    if c.cap as real <= 600.0 * c.rate {
      forall events | Ordered(events) ensures Decisions(c, None, events, true) == Decisions(c, None, events, false) {
        RunsAlike(c, events);
      }
    } else {
      CollectorShows(c);
    }
  }

  // ---------------------------------------------------------------- when the bound holds

  lemma {:induction false} BoundBroken(c: Limit, rate: real) returns (window: seq<Event>)
    requires Sane(c) && rate >= 0.0 && c.cap as real > 600.0 * rate
    ensures Ordered([] + window) && window != [] && !Fits(c, rate, Length(window), AdmittedIn(c, [], window, true))
  {
    var t := ShortlyAfter(c, rate);
    window := Twice(c, t);
    TwiceIsOrdered(c, t);
    TwiceWithCollector(c, t);
    TwiceDoesNotFit(c, rate, t);
    assert [] + window == window;
    assert AdmittedIn(c, [], window, true) == 2 * c.cap && Length(window) == t - 0.0;
  }

  lemma TwiceDoesNotFit(c: Limit, rate: real, t: real)
    requires c.cap >= 0 && t * rate < c.cap as real
    ensures !Fits(c, rate, t - 0.0, 2 * c.cap)
  {
    if Fits(c, rate, t - 0.0, 2 * c.cap) { FitsTwice(c, rate, t, 2 * c.cap); }
  }

  /** The limiter as it runs, with its collector, keeps to the capacity and a rate (its own, or a
      higher one) in every stretch of every run exactly if ten minutes at that rate refill an empty
      bucket. So LongRunRate is the lowest it keeps to. */
  lemma {:induction false} BoundHoldsIff(c: Limit, rate: real)
    requires Sane(c) && c.rate <= rate
    ensures (forall before, window | Ordered(before + window) && window != [] ::
               Fits(c, rate, Length(window), AdmittedIn(c, before, window, true)))
            <==> c.cap as real <= 600.0 * rate
  {
    if c.cap as real <= 600.0 * rate {
      forall before, window | Ordered(before + window) && window != []
        ensures Fits(c, rate, Length(window), AdmittedIn(c, before, window, true))
      {
        PartsOrdered(before, window);
        StartsSound(c, before, window[0], true);
        RunFits(c, rate, Run(c, None, before, true), window, true);
      }
    } else {
      var window := BoundBroken(c, rate);
    }
  }

  // ---------------------------------------------------------------- the advice to retry

  function RetryAfter(c: Limit, tokens: real): int
    requires c.rate > 0.0 && tokens < 1.0
  {
    var seconds := ((1.0 - tokens) / c.rate).Floor;
    if seconds < 1 then 1 else seconds
  }

  /** A client that waits as long as it was told finds a token exactly if the wait it needs is a
      whole number of seconds or at most one. */
  lemma RetryAfterIsEnoughIff(c: Limit, b: Bucket)
    requires c.cap >= 1 && c.rate > 0.0 && b.tokens < 1.0
    ensures var wait := (1.0 - b.tokens) / c.rate;
            Admits(c, Some(b), Request(b.last + RetryAfter(c, b.tokens) as real))
            <==> wait <= 1.0 || wait == wait.Floor as real
  {
    var wait := (1.0 - b.tokens) / c.rate;
    var told := RetryAfter(c, b.tokens) as real;
    assert wait * c.rate == 1.0 - b.tokens;
    LevelAfter(c, b, b.last + told, told);
    assert told >= wait <==> wait <= 1.0 || wait == wait.Floor as real;
    assert Admits(c, Some(b), Request(b.last + told)) <==> b.tokens + told * c.rate >= 1.0;
    Suffices(b.tokens, wait, told, c.rate);
  }

  lemma Suffices(tokens: real, wait: real, told: real, rate: real)
    requires rate > 0.0 && wait * rate == 1.0 - tokens
    ensures tokens + told * rate >= 1.0 <==> told >= wait
  {
    if told >= wait { Scaled(wait, told, rate); } else { StrictlyScaled(told, wait, rate); }
  }

  lemma StrictlyScaled(a: real, b: real, r: real)
    requires a < b && r > 0.0
    ensures a * r < b * r
  {
    assert (b - a) * r > 0.0;
    assert (b - a) * r == b * r - a * r;
  }
}
