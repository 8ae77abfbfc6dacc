/** `IDWorker` of packages/accounting-system/internal/common/idgen.go. The clock is a finite list of
    readings; a call that would wait for more readings than there are does not return. */
module Snowflake {
  import opened Prelude

  const WORKER_MAX := 1023
  const NUMBER_MAX := 0x3f_ffff
  const EPOCH := 1_594_364_131

  /** Bitwise or, bit by bit. */
  function Or(a: nat, b: nat): nat {
    if a == 0 && b == 0 then 0 else 2 * Or(a / 2, b / 2) + if a % 2 == 1 || b % 2 == 1 then 1 else 0
  }

  function Pow2(n: nat): (p: nat)
    ensures p > 0
  {
    if n == 0 then 1 else 2 * Pow2(n - 1)
  }

  /** The bits of a number above position n do not meet those of a number below 2^n. */
  lemma {:induction false} OrIsSum(high: nat, low: nat, n: nat)
    requires low < Pow2(n)
    ensures Or(high * Pow2(n), low) == high * Pow2(n) + low
  {
    if n == 0 {
      OrZero(high);
    } else {
      var a := high * Pow2(n);
      Halve(high, Pow2(n - 1));
      OrIsSum(high, low / 2, n - 1);
    }
  }

  lemma {:induction false} OrZero(a: nat)
    ensures Or(a, 0) == a
  {
    if a > 0 { OrZero(a / 2); }
  }

  lemma Halve(h: nat, p: nat)
    ensures h * (2 * p) / 2 == h * p && h * (2 * p) % 2 == 0
  {
    assert h * (2 * p) == 2 * (h * p);
  }

  /** An id as the source puts it together, and as arithmetic reads it. */
  function Shift(a: nat, n: nat): nat { a * Pow2(n) }

  function Id(time: int, worker: nat, number: nat): nat
    requires time >= EPOCH
  {
    Or(Or(Shift(time - EPOCH, 32), Shift(worker, 22)), number)
  }

  function Sum(time: int, worker: nat, number: nat): int {
    Packed(time - EPOCH, worker, number)
  }

  function Packed(t: int, w: nat, n: nat): int { t * 0x1_0000_0000 + (w * 0x40_0000 + n) }

  lemma Powers()
    ensures Pow2(10) == 0x400 && Pow2(22) == 0x40_0000 && Pow2(32) == 0x1_0000_0000
  {
    assert Pow2(10) == 0x400;
    assert Pow2(20) == 0x10_0000 by { assert Pow2(15) == 0x8000; }
    assert Pow2(25) == 0x200_0000;
    assert Pow2(30) == 0x4000_0000;
  }

  lemma {:induction false} IdIsSum(time: int, worker: nat, number: nat)
    requires time >= EPOCH && worker <= WORKER_MAX && number <= NUMBER_MAX
    ensures Id(time, worker, number) == Sum(time, worker, number)
  {
    Powers();
    var t: nat := time - EPOCH;
    assert t * Pow2(32) == t * 0x1_0000_0000;
    OrIsSum(t, worker * 0x40_0000, 32);
    var high := t * 1024 + worker;
    assert high * 0x40_0000 == t * 0x1_0000_0000 + worker * 0x40_0000;
    OrIsSum(high, number, 22);
  }

  lemma SumsAreOrdered(t: int, w: nat, n: nat, t1: int, w1: nat, n1: nat)
    requires 0 <= t < 0x8000_0000 && w <= WORKER_MAX && n <= NUMBER_MAX
    requires 0 <= t1 < 0x8000_0000 && w1 <= WORKER_MAX && n1 <= NUMBER_MAX
    ensures Packed(t, w, n) == Packed(t1, w1, n1) <==> t == t1 && w == w1 && n == n1
    ensures w == w1 ==> (Packed(t, w, n) < Packed(t1, w1, n1) <==> t < t1 || (t == t1 && n < n1))
    ensures Packed(t, w, n) < 0x8000_0000_0000_0000
  {
    assert w * 0x40_0000 + n < 0x1_0000_0000 && w1 * 0x40_0000 + n1 < 0x1_0000_0000;
    if t < t1 { assert Packed(t, w, n) < Packed(t1, w1, n1); }
    if t1 < t { assert Packed(t1, w1, n1) < Packed(t, w, n); }
  }

  /** Ids of different workers, and of different seconds or numbers, are different, and ids grow with
      second and number. */
  lemma IdsAreOrdered(t: int, w: nat, n: nat, t1: int, w1: nat, n1: nat)
    requires EPOCH <= t < EPOCH + 0x8000_0000 && w <= WORKER_MAX && n <= NUMBER_MAX
    requires EPOCH <= t1 < EPOCH + 0x8000_0000 && w1 <= WORKER_MAX && n1 <= NUMBER_MAX
    ensures Id(t, w, n) == Id(t1, w1, n1) <==> t == t1 && w == w1 && n == n1
    ensures w == w1 ==> (Id(t, w, n) < Id(t1, w1, n1) <==> t < t1 || (t == t1 && n < n1))
    ensures Id(t, w, n) < 0x8000_0000_0000_0000
  {
    IdIsSum(t, w, n);
    IdIsSum(t1, w1, n1);
    SumsAreOrdered(t - EPOCH, w, n, t1 - EPOCH, w1, n1);
  }

  // ---------------------------------------------------------------- one call

  datatype Worker = Worker(timestamp: int, number: nat)

  /** What a call returns: the worker after it, the second and number of the id, and how far the
      clock has been read. */
  datatype Issue = Issue(worker: Worker, time: int, number: nat, pos: nat)

  /** The first reading from `pos` on that is at least `bound`. */
  function WaitFor(clock: seq<int>, pos: nat, bound: int): (p: Option<nat>)
    ensures p.Some? ==> pos <= p.value < |clock| && clock[p.value] >= bound
    ensures p.Some? ==> forall i | pos <= i < p.value :: clock[i] < bound
    ensures p.None? ==> forall i | pos <= i < |clock| :: clock[i] < bound
    decreases |clock| - pos
  {
    if pos >= |clock| then None else if clock[pos] >= bound then Some(pos) else WaitFor(clock, pos + 1, bound)
  }

  /** A fresh second after the numbers of this one are used up, starting from a reading at `pos`. */
  function NextSecond(timestamp: int, clock: seq<int>, pos: nat): Option<Issue> {
    match WaitFor(clock, pos, timestamp + 1)
    case None => None
    case Some(p) => Some(Issue(Worker(clock[p], 0), clock[p], 0, p + 1))
  }

  /** `NextID` from the reading at `pos`. */
  function Next(w: Worker, clock: seq<int>, pos: nat): Option<Issue> {
    if pos >= |clock| then None
    else if clock[pos] > w.timestamp then Some(Issue(Worker(clock[pos], 0), clock[pos], 0, pos + 1))
    else
      match WaitFor(clock, pos, w.timestamp)
      case None => None
      case Some(p) =>
        if w.number + 1 > NUMBER_MAX then NextSecond(w.timestamp, clock, p)
        else Some(Issue(w.(number := w.number + 1), clock[p], w.number + 1, p + 1))
  }

  predicate Before(w: Worker, w1: Worker) {
    w.timestamp < w1.timestamp || (w.timestamp == w1.timestamp && w.number < w1.number)
  }

  /** The id of a call carries another second than the worker records; it can only be a later one. */
  predicate Overshoots(i: Issue) { i.time != i.worker.timestamp }

  /** Whatever the clock does, second and number of the worker move forward, and the id is not earlier
      than they are. */
  lemma NextMovesForward(w: Worker, clock: seq<int>, pos: nat)
    requires Next(w, clock, pos).Some? && w.number <= NUMBER_MAX
    ensures var i := Next(w, clock, pos).value;
            && Before(w, i.worker) && i.time >= i.worker.timestamp && i.number == i.worker.number <= NUMBER_MAX
            && pos < i.pos <= |clock| && i.time in clock
  {
  }

  /** The id is later than the worker's second exactly when the clock, having gone back, is next seen
      past that second while numbers are left. */
  lemma OvershootsIff(w: Worker, clock: seq<int>, pos: nat)
    requires Next(w, clock, pos).Some?
    ensures Overshoots(Next(w, clock, pos).value) <==>
              && clock[pos] < w.timestamp && w.number + 1 <= NUMBER_MAX
              && clock[WaitFor(clock, pos, w.timestamp).value] > w.timestamp
  {
  }

  /** What a call waits for: a second in which the worker has a number left. */
  function Needed(w: Worker): int { if w.number < NUMBER_MAX then w.timestamp else w.timestamp + 1 }

  /** A call returns exactly if the clock shows such a second, and takes the first reading that does; it
      counts on unless the second is new or its numbers are used up. */
  lemma {:induction false} WaitsNoLongerThanNeeded(w: Worker, clock: seq<int>, pos: nat)
    requires w.number <= NUMBER_MAX
    ensures Next(w, clock, pos).Some? <==> exists p :: pos <= p < |clock| && clock[p] >= Needed(w)
    ensures Next(w, clock, pos).Some? ==>
              var i := Next(w, clock, pos).value;
              && pos < i.pos <= |clock| && i.time == clock[i.pos - 1] >= Needed(w)
              && (forall p | pos <= p < i.pos - 1 :: clock[p] < Needed(w))
              && i.worker == if clock[pos] > w.timestamp || w.number == NUMBER_MAX then Worker(i.time, 0)
                             else Worker(w.timestamp, w.number + 1)
  {
  }

  // ---------------------------------------------------------------- runs

  /** Where a run stands: the worker and the position on the clock. */
  function Stand(w: Worker, issued: seq<Issue>): (Worker, nat) {
    if issued == [] then (w, 0) else (issued[|issued| - 1].worker, issued[|issued| - 1].pos)
  }

  /** The first `n` ids, as issued; `None` if the clock does not last. */
  function Run(w: Worker, clock: seq<int>, n: nat): Option<seq<Issue>> {
    if n == 0 then Some([])
    else
      match Run(w, clock, n - 1)
      case None => None
      case Some(issued) =>
        match Next(Stand(w, issued).0, clock, Stand(w, issued).1)
        case None => None
        case Some(i) => Some(issued + [i])
  }

  ghost predicate Good(w: Worker, clock: seq<int>, issued: seq<Issue>) {
    && (forall k | 0 <= k < |issued| ::
          && issued[k].time >= issued[k].worker.timestamp && issued[k].number == issued[k].worker.number <= NUMBER_MAX
          && Before(w, issued[k].worker) && issued[k].time in clock)
    && (forall j, k | 0 <= j < k < |issued| :: Before(issued[j].worker, issued[k].worker))
  }

  lemma {:induction false} GoodExtends(w: Worker, clock: seq<int>, issued: seq<Issue>, i: Issue)
    requires Good(w, clock, issued) && Before(Stand(w, issued).0, i.worker)
    requires i.time >= i.worker.timestamp && i.number == i.worker.number <= NUMBER_MAX && i.time in clock
    ensures Good(w, clock, issued + [i])
  {
    var all := issued + [i];
    forall j, k | 0 <= j < k < |all| ensures Before(all[j].worker, all[k].worker) {
      if k == |issued| && j < k - 1 { assert Before(issued[j].worker, issued[k - 1].worker); }
    }
  }

  lemma {:induction false} RunsAreGood(w: Worker, clock: seq<int>, n: nat)
    requires Run(w, clock, n).Some? && w.number <= NUMBER_MAX
    ensures |Run(w, clock, n).value| == n && Good(w, clock, Run(w, clock, n).value)
  {
    if n > 0 {
      RunsAreGood(w, clock, n - 1);
      var issued := Run(w, clock, n - 1).value;
      var (w1, pos) := Stand(w, issued);
      NextMovesForward(w1, clock, pos);
      GoodExtends(w, clock, issued, Next(w1, clock, pos).value);
    }
  }

  predicate InRange(clock: seq<int>) {
    forall i | 0 <= i < |clock| :: EPOCH <= clock[i] < EPOCH + 0x8000_0000
  }

  function IdOf(i: Issue, worker: nat): nat
    requires i.time >= EPOCH
  {
    Id(i.time, worker, i.number)
  }

  /** Whatever the clocks do: every id of a worker whose call did not overshoot is smaller than all its
      later ids, and no other worker issues any of its ids. */
  lemma {:induction false} IdsIncreaseAndDoNotCollide(w: Worker, clock: seq<int>, n: nat, worker: nat,
                                                     w1: Worker, clock1: seq<int>, n1: nat, worker1: nat)
    requires InRange(clock) && Run(w, clock, n).Some? && w.number <= NUMBER_MAX && worker <= WORKER_MAX
    requires InRange(clock1) && Run(w1, clock1, n1).Some? && w1.number <= NUMBER_MAX && worker1 <= WORKER_MAX
    ensures |Run(w, clock, n).value| == n && |Run(w1, clock1, n1).value| == n1
    ensures forall k | 0 <= k < n :: Run(w, clock, n).value[k].time >= EPOCH
    ensures forall k | 0 <= k < n1 :: Run(w1, clock1, n1).value[k].time >= EPOCH
    ensures var a := Run(w, clock, n).value;
            forall j, k | 0 <= j < k < n && !Overshoots(a[j]) :: IdOf(a[j], worker) < IdOf(a[k], worker)
    ensures var a, b := Run(w, clock, n).value, Run(w1, clock1, n1).value;
            worker != worker1 ==> forall j, k | 0 <= j < n && 0 <= k < n1 :: IdOf(a[j], worker) != IdOf(b[k], worker1)
  {
    RunsAreGood(w, clock, n);
    RunsAreGood(w1, clock1, n1);
    var a, b := Run(w, clock, n).value, Run(w1, clock1, n1).value;
    forall j, k | 0 <= j < k < n && !Overshoots(a[j]) ensures IdOf(a[j], worker) < IdOf(a[k], worker) {
      IdsAreOrdered(a[j].time, worker, a[j].number, a[k].time, worker, a[k].number);
    }
    if worker != worker1 {
      forall j, k | 0 <= j < n && 0 <= k < n1 ensures IdOf(a[j], worker) != IdOf(b[k], worker1) {
        IdsAreOrdered(a[j].time, worker, a[j].number, b[k].time, worker1, b[k].number);
      }
    }
  }

  /** The readings go back as far as they like but advance by at most a second at a time. */
  predicate Smooth(clock: seq<int>) {
    forall i, j | 0 <= i < j == i + 1 < |clock| :: clock[j] <= clock[i] + 1
  }

  /** The readings never go back. */
  predicate Monotone(clock: seq<int>) {
    forall i, j | 0 <= i < j < |clock| :: clock[i] <= clock[j]
  }

  lemma NoOvershoot(w: Worker, clock: seq<int>, pos: nat)
    requires Next(w, clock, pos).Some?
    requires Smooth(clock) || (pos < |clock| && w.timestamp <= clock[pos])
    ensures !Overshoots(Next(w, clock, pos).value)
  {
    OvershootsIff(w, clock, pos);
    if clock[pos] < w.timestamp {
      var p := WaitFor(clock, pos, w.timestamp).value;
      assert clock[p - 1] < w.timestamp;
    }
  }

  lemma ReadJustBefore(w: Worker, clock: seq<int>, pos: nat)
    requires Next(w, clock, pos).Some?
    ensures var i := Next(w, clock, pos).value; 0 < i.pos <= |clock| && i.time == clock[i.pos - 1]
  {
  }

  lemma LastCall(w: Worker, clock: seq<int>, n: nat) returns (issued: seq<Issue>, i: Issue)
    requires n > 0 && Run(w, clock, n).Some?
    ensures Run(w, clock, n - 1) == Some(issued) && Run(w, clock, n) == Some(issued + [i])
    ensures Next(Stand(w, issued).0, clock, Stand(w, issued).1) == Some(i)
    ensures Stand(w, issued + [i]) == (i.worker, i.pos)
  {
    issued := Run(w, clock, n - 1).value;
    i := Next(Stand(w, issued).0, clock, Stand(w, issued).1).value;
  }

  /** With a clock that never goes back, the worker stands in the second of the last reading. */
  lemma {:induction false} StandsInPast(w: Worker, clock: seq<int>, n: nat)
    requires Run(w, clock, n).Some? && Monotone(clock) && forall t | t in clock :: w.timestamp <= t
    ensures var (w1, pos) := Stand(w, Run(w, clock, n).value); pos < |clock| ==> w1.timestamp <= clock[pos]
  {
    if n > 0 {
      StandsInPast(w, clock, n - 1);
      var issued, i := LastCall(w, clock, n);
      var (w1, pos) := Stand(w, issued);
      ReadJustBefore(w1, clock, pos);
      NoOvershoot(w1, clock, pos);
    } else if clock != [] {
      assert clock[0] in clock;
    }
  }

  predicate GoodClock(w: Worker, clock: seq<int>) {
    Smooth(clock) || (Monotone(clock) && forall t | t in clock :: w.timestamp <= t)
  }

  lemma {:induction false} NextIsGood(w: Worker, clock: seq<int>, issued: seq<Issue>, n: nat)
    requires GoodClock(w, clock) && Run(w, clock, n) == Some(issued)
    requires Next(Stand(w, issued).0, clock, Stand(w, issued).1).Some?
    ensures !Overshoots(Next(Stand(w, issued).0, clock, Stand(w, issued).1).value)
  {
    if !Smooth(clock) { StandsInPast(w, clock, n); }
    NoOvershoot(Stand(w, issued).0, clock, Stand(w, issued).1);
  }

  /** Two kinds of clock with which no call overshoots: one that advances by at most a second between
      readings, and one that never goes back, however long the worker idles. */
  lemma {:induction false} GoodClocks(w: Worker, clock: seq<int>, n: nat)
    requires Run(w, clock, n).Some? && GoodClock(w, clock)
    ensures forall i | i in Run(w, clock, n).value :: !Overshoots(i)
  {
    if n > 0 {
      GoodClocks(w, clock, n - 1);
      var issued, i := LastCall(w, clock, n);
      NextIsGood(w, clock, issued, n - 1);
    }
  }

  /** With such a clock all ids of a worker strictly increase. */
  lemma {:induction false} IdsIncrease(w: Worker, clock: seq<int>, n: nat, worker: nat)
    requires GoodClock(w, clock) && InRange(clock)
    requires Run(w, clock, n).Some? && w.number <= NUMBER_MAX && worker <= WORKER_MAX
    ensures var a := Run(w, clock, n).value;
            && |a| == n && (forall k | 0 <= k < n :: a[k].time >= EPOCH)
            && forall j, k | 0 <= j < k < n :: IdOf(a[j], worker) < IdOf(a[k], worker)
  {
    IdsIncreaseAndDoNotCollide(w, clock, n, worker, w, clock, n, worker);
    GoodClocks(w, clock, n);
    var a := Run(w, clock, n).value;
    assert forall j | 0 <= j < n :: a[j] in a;
  }

  // ---------------------------------------------------------------- a clock that jumps

  function Steady(t: int, n: nat): seq<int> { seq(n, _ => t) }

  lemma SteadyNext(w: Worker, t: int, k: nat, total: nat)
    requires k < total && k <= NUMBER_MAX && if k == 0 then w.timestamp < t else w == Worker(t, k - 1)
    ensures Next(w, Steady(t, total), k) == Some(Issue(Worker(t, k), t, k, k + 1))
  {
    var clock := Steady(t, total);
    if k > 0 { assert WaitFor(clock, k, t) == Some(k); }
  }

  lemma {:induction false} SteadyRun(w: Worker, t: int, n: nat, total: nat)
    requires w.timestamp < t && n <= total && n <= NUMBER_MAX + 1
    ensures var run := Run(w, Steady(t, total), n);
            run.Some? && |run.value| == n && forall k | 0 <= k < n :: run.value[k] == Issue(Worker(t, k), t, k, k + 1)
  {
    if n > 0 {
      SteadyRun(w, t, n - 1, total);
      SteadyNext(Stand(w, Run(w, Steady(t, total), n - 1).value).0, t, n - 1, total);
    }
  }

  /** A call that overshoots issues an id that is issued again: the worker it leaves behind, in the
      second `t` of that id, repeats its number. */
  lemma OvershootRepeats(w: Worker, clock: seq<int>, pos: nat)
    requires Next(w, clock, pos).Some? && w.number <= NUMBER_MAX
    requires Overshoots(Next(w, clock, pos).value)
    ensures var i := Next(w, clock, pos).value;
            Repeats(i, Steady(i.time, i.number + 1), i.number + 1)
  {
    OvershootsIff(w, clock, pos);
    var i := Next(w, clock, pos).value;
    SteadyRun(i.worker, i.time, i.number + 1, i.number + 1);
  }

  /** With `later` as its next readings, the worker's n-th next call issues the id of `i` again. */
  predicate Repeats(i: Issue, later: seq<int>, n: nat) {
    n > 0 &&
    match Run(i.worker, later, n)
    case None => false
    case Some(issued) => issued != [] && var last := issued[|issued| - 1];
      last.time == i.time && last.number == i.number
  }

  /** Exactly the ids of calls that overshoot can be issued again by their worker. */
  lemma {:induction false} RepeatsIff(w: Worker, clock: seq<int>, pos: nat)
    requires Next(w, clock, pos).Some? && w.number <= NUMBER_MAX
    ensures var i := Next(w, clock, pos).value;
            (exists later, n :: Repeats(i, later, n)) <==> Overshoots(i)
  {
    var i := Next(w, clock, pos).value;
    NextMovesForward(w, clock, pos);
    if Overshoots(i) {
      OvershootRepeats(w, clock, pos);
    } else {
      forall later, n ensures !Repeats(i, later, n) {
        if n > 0 && Run(i.worker, later, n).Some? { RunsAreGood(i.worker, later, n); }
      }
    }
  }

  // ---------------------------------------------------------------- the worker object

  class IDWorker {
    const workerId: nat
    var timestamp: int
    var number: nat

    constructor (workerId: nat)
      requires workerId <= WORKER_MAX
      ensures this.workerId == workerId && timestamp == 0 && number == 0
    {
      this.workerId := workerId;
      timestamp, number := 0, 0;
    }

    /** `NextID`, reading the clock from `pos` on; it returns `None` where the clock ends and the
        source would go on waiting. */
    method NextId(clock: seq<int>, pos: nat) returns (id: Option<nat>, next: nat)
      requires InRange(clock) && workerId <= WORKER_MAX && number <= NUMBER_MAX
      modifies this
      ensures var i := Next(old(Worker(timestamp, number)), clock, pos);
              && (id.Some? <==> i.Some?)
              && (i.Some? ==> Worker(timestamp, number) == i.value.worker && next == i.value.pos
                              && i.value.time >= EPOCH && id.value == IdOf(i.value, workerId))
      ensures number <= NUMBER_MAX
    {
      if pos >= |clock| { return None, pos; }
      var p, now := pos, clock[pos];
      if now == timestamp {
        number := number + 1;
        if number > NUMBER_MAX {
          p := RollOver(clock, p);
          if p >= |clock| { return None, p; }
          now := clock[p];
        }
      } else if now > timestamp {
        number, timestamp := 0, now;
      } else {
        p := Await(clock, p, timestamp);
        if p >= |clock| { return None, p; }
        now := clock[p];
        number := number + 1;
        if number > NUMBER_MAX {
          p := RollOver(clock, p);
          if p >= |clock| { return None, p; }
          now := clock[p];
        }
      }
      return Some(Id(now, workerId, number)), p + 1;
    }

    /** The numbers of the second are used up: wait for a new one. */
    method RollOver(clock: seq<int>, pos: nat) returns (p: nat)
      requires pos < |clock|
      modifies this
      ensures p >= pos && number == 0 && (p >= |clock| ==> timestamp == old(timestamp))
      ensures p < |clock| ==> timestamp == clock[p]
      ensures NextSecond(old(timestamp), clock, pos)
              == if p < |clock| then Some(Issue(Worker(timestamp, 0), timestamp, 0, p + 1)) else None
    {
      number := 0;
      p := Await(clock, pos, timestamp + 1);
      if p < |clock| { timestamp := clock[p]; }
    }

    /** The waiting loops. */
    method Await(clock: seq<int>, pos: nat, bound: int) returns (p: nat)
      requires pos < |clock|
      ensures p >= pos && WaitFor(clock, pos, bound) == if p < |clock| then Some(p) else None
    {
      p := pos;
      while p < |clock| && clock[p] < bound
        invariant pos <= p <= |clock| && WaitFor(clock, pos, bound) == WaitFor(clock, p, bound)
      {
        p := p + 1;
      }
    }
  }
}
