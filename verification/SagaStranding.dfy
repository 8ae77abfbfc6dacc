/** When a saga is left behind: its stored instance still says `started`, which nothing resumes,
    while some of its steps are in effect (saga.go:226-237, 387-390). */
module SagaStranding {
  import opened Saga
  import opened SagaMachine
  import opened SagaRun

  /** Moves that write to the store. */
  predicate Writing(pc: Pc) {
    pc.Begin? || pc.Mark? || pc.Record? || pc.UndoSave? || pc.Finish?
  }

  /** The state of a saga started in `w` after that many uninterrupted moves. */
  function Reach<W>(steps: seq<Step<W>>, w: W, saves: seq<bool>): State<W> {
    Run(steps, Initial(|steps|, w), [Start(true)] + Gos(saves))
  }

  /** None of the writes after the first one has reached the store. */
  ghost predicate NoneArrived<W>(steps: seq<Step<W>>, w: W, saves: seq<bool>) {
    forall k | 0 <= k < |saves| && Writing(Reach(steps, w, saves[..k]).pc) :: !saves[k]
  }

  /** Below the failed step f, the steps before k and those without a compensator are in effect. */
  ghost predicate Left<W>(x: Setting<W>, w: W, f: nat, k: nat) {
    forall j: nat | j < |x.steps| :: x.applied(w, j) == if j < f && (j < k || x.steps[j].compensate.None?) then 1 else 0
  }

  /** What is in effect at each point of an uninterrupted run, and how it ended. */
  ghost predicate Ends<W>(x: Setting<W>, s: State<W>, out: SagaState) {
    var f := s.mem.currentStep;
    match out
    case Completed => Prefix(x, s.world, |x.steps|)
    case Compensating => f < |x.steps| && Left(x, s.world, f, 0)
    case Failed => exists k: nat :: 0 < k <= f < |x.steps| && Left(x, s.world, f, k)
    case _ => false
  }

  ghost predicate Exact<W>(x: Setting<W>, s: State<W>) {
    var n, f := |x.steps|, s.mem.currentStep;
    match s.pc
    case Idle => Ends(x, s, s.mem.state)
    case Begin => Untouched(x, s.world)
    case Mark(i) => i < n && Prefix(x, s.world, i) && s.mem.state == Forwarding
    case Call(i) => i < n && f == i && Prefix(x, s.world, i) && s.mem.state == Forwarding
    case Record(i) => i < n && f == i && Prefix(x, s.world, i + 1) && s.mem.state == Forwarding
    case Undo(k) => k <= f < n && Left(x, s.world, f, k) && s.mem.state == Forwarding
    case UndoSave(k) => k <= f < n && Left(x, s.world, f, k) && s.mem.state == Forwarding
    case Finish(out) => Ends(x, s, out) && s.mem.state == Forwarding
    case Recall(_) => false
  }

  lemma {:induction false} ForwardExact<W(!new)>(x: Setting<W>, s: State<W>, saved: bool)
    requires Idempotent(x) && x.steps != [] && Exact(x, s) && !s.pc.Undo? && !s.pc.UndoSave?
    ensures Exact(x, Move(x.steps, s, saved))
  {
    if s.pc.Call? { assert ExecutesOnce(x, s.pc.i, s.world); }
  }

  lemma {:induction false} BackwardExact<W(!new)>(x: Setting<W>, s: State<W>, saved: bool)
    requires Idempotent(x) && Exact(x, s) && (s.pc.Undo? || s.pc.UndoSave?)
    ensures Exact(x, Move(x.steps, s, saved))
  {
    if s.pc.Undo? && s.pc.k > 0 && x.steps[s.pc.k - 1].compensate.Some? {
      assert CompensatesOnce(x, s.pc.k - 1, s.world);
      var s1 := Move(x.steps, s, saved);
      assert s1.pc == Finish(Failed) ==> Left(x, s1.world, s.mem.currentStep, s.pc.k);
    }
  }

  /** Whether some step is in effect, as can be read off the place where the process died. */
  ghost predicate Remaining<W>(steps: seq<Step<W>>, s: State<W>) {
    var f := s.mem.currentStep;
    var silent := exists j :: 0 <= j < f && j < |steps| && steps[j].compensate.None?;
    match s.pc
    case Begin => false
    case Mark(i) => i > 0
    case Call(i) => i > 0
    case Undo(k) => k > 0 || silent
    case UndoSave(k) => k > 0 || silent
    case Finish(out) => out == Compensating ==> silent
    case Idle => s.mem.state == Compensating ==> silent
    case _ => true
  }

  lemma {:induction false} LeftRemains<W>(x: Setting<W>, w: W, f: nat, k: nat)
    requires k <= f < |x.steps| && Left(x, w, f, k)
    ensures !Untouched(x, w) <==> k > 0 || exists j :: 0 <= j < f && j < |x.steps| && x.steps[j].compensate.None?
  {
    if k > 0 { assert x.applied(w, k - 1) == 1; }
  }

  lemma {:induction false} PrefixRemains<W>(x: Setting<W>, w: W, m: nat)
    requires m <= |x.steps| && Prefix(x, w, m)
    ensures !Untouched(x, w) <==> m > 0
  {
    if m > 0 { assert x.applied(w, 0) == 1; }
  }

  lemma {:induction false} RemainingIsExact<W>(x: Setting<W>, s: State<W>)
    requires x.steps != [] && Exact(x, s)
    ensures Remaining(x.steps, s) <==> !Untouched(x, s.world)
  {
    var f := s.mem.currentStep;
    match s.pc
    case Mark(i) => PrefixRemains(x, s.world, i);
    case Call(i) => PrefixRemains(x, s.world, i);
    case Record(i) => PrefixRemains(x, s.world, i + 1);
    case Undo(k) => LeftRemains(x, s.world, f, k);
    case UndoSave(k) => LeftRemains(x, s.world, f, k);
    case Finish(out) => EndRemains(x, s, out);
    case Idle => EndRemains(x, s, s.mem.state);
    case _ =>
  }

  lemma {:induction false} EndRemains<W>(x: Setting<W>, s: State<W>, out: SagaState)
    requires x.steps != [] && Ends(x, s, out)
    ensures var f := s.mem.currentStep;
            !Untouched(x, s.world)
            <==> (out == Compensating ==> exists j :: 0 <= j < f && j < |x.steps| && x.steps[j].compensate.None?)
  {
    if out == Completed {
      PrefixRemains(x, s.world, |x.steps|);
    } else if out == Compensating {
      LeftRemains(x, s.world, s.mem.currentStep, 0);
    } else {
      var k: nat :| 0 < k <= s.mem.currentStep < |x.steps| && Left(x, s.world, s.mem.currentStep, k);
      LeftRemains(x, s.world, s.mem.currentStep, k);
    }
  }

  /** The stored instance is the one written first exactly as long as no other write has arrived. */
  ghost predicate Stored<W>(steps: seq<Step<W>>, w: W, saves: seq<bool>) {
    var s := Reach(steps, w, saves);
    s.disk.Some? && (s.disk.value.state == Started <==> NoneArrived(steps, w, saves))
  }

  lemma {:induction false} Arrives<W>(steps: seq<Step<W>>, w: W, before: seq<bool>, saved: bool)
    ensures NoneArrived(steps, w, before + [saved])
            <==> NoneArrived(steps, w, before) && (Writing(Reach(steps, w, before).pc) ==> !saved)
  {
    var saves := before + [saved];
    assert saves[..|before|] == before && saves[|before|] == saved;
    assert forall k | 0 <= k < |before| :: saves[..k] == before[..k] && saves[k] == before[k];
  }

  lemma {:induction false} DiskMove<W>(x: Setting<W>, s: State<W>, saved: bool)
    requires Exact(x, s) && s.disk.Some?
    ensures var d := Move(x.steps, s, saved).disk;
            d.Some? && (d.value.state == Started <==> s.disk.value.state == Started && (Writing(s.pc) ==> !saved))
  {
  }

  lemma {:induction false} FirstIsExact<W>(x: Setting<W>, w: W)
    requires Untouched(x, w) && x.steps != []
    ensures Exact(x, Reach(x.steps, w, [])) && Stored(x.steps, w, [])
  {
    assert [Start(true)] + Gos([]) == [] + [Start(true)];
    RunSnoc(x.steps, Initial(|x.steps|, w), [], Start(true));
  }

  lemma {:induction false} NextIsExact<W(!new)>(x: Setting<W>, w: W, before: seq<bool>, saved: bool)
    requires Idempotent(x) && x.steps != [] && Exact(x, Reach(x.steps, w, before)) && Stored(x.steps, w, before)
    ensures Exact(x, Reach(x.steps, w, before + [saved])) && Stored(x.steps, w, before + [saved])
  {
    var s := Reach(x.steps, w, before);
    GoOn(x.steps, Initial(|x.steps|, w), Start(true), before, saved);
    Arrives(x.steps, w, before, saved);
    DiskMove(x, s, saved);
    if s.pc.Undo? || s.pc.UndoSave? { BackwardExact(x, s, saved); } else { ForwardExact(x, s, saved); }
  }

  lemma {:induction false} RunIsExact<W(!new)>(x: Setting<W>, w: W, saves: seq<bool>)
    requires Idempotent(x) && Untouched(x, w) && x.steps != []
    ensures Exact(x, Reach(x.steps, w, saves)) && Stored(x.steps, w, saves)
  {
    if saves == [] {
      FirstIsExact(x, w);
    } else {
      var before, saved := saves[..|saves| - 1], saves[|saves| - 1];
      assert saves == before + [saved];
      RunIsExact(x, w, before);
      NextIsExact(x, w, before, saved);
    }
  }

  /** Nothing will resume this saga, and it is not without effect. */
  ghost predicate Stranded<W>(x: Setting<W>, s: State<W>) {
    s.disk.Some? && s.disk.value.state == Started && Apply(x.steps, s, Resume) == s && !Untouched(x, s.world)
  }

  /** Exactly when a saga is stranded by a death of the process, at whatever point: no write after the
      first has arrived, and at that point some step is in effect. */
  lemma {:induction false} StrandedIff<W(!new)>(x: Setting<W>, w: W, saves: seq<bool>)
    requires Idempotent(x) && Untouched(x, w) && x.steps != []
    ensures var s := Reach(x.steps, w, saves);
            Stranded(x, Apply(x.steps, s, Crash)) <==> NoneArrived(x.steps, w, saves) && Remaining(x.steps, s)
  {
    RunIsExact(x, w, saves);
    RemainingIsExact(x, Reach(x.steps, w, saves));
  }

  lemma {:induction false} FirstCall<W>(steps: seq<Step<W>>, w: W, a: bool, b: bool)
    requires steps != []
    ensures var s := Reach(steps, w, [a, b, true]);
            && s.disk.Some? && (s.disk.value.state == Started <==> !a && !b) && s.mem.currentStep == 0
            && s.pc == if Execute(steps[0], w).1 then Record(0) else Undo(0)
  {
    var s0 := Initial(|steps|, w);
    var s1 := Apply(steps, s0, Start(true));
    var s2 := Apply(steps, s1, Go(a));
    var s3 := Apply(steps, s2, Go(b));
    var s4 := Apply(steps, s3, Go(true));
    assert [Start(true)] + Gos([a, b, true]) == [Start(true), Go(a), Go(b), Go(true)];
    Trace(steps, [s0, s1, s2, s3, s4], [Start(true), Go(a), Go(b), Go(true)]);
  }

  /** Death right after the first call: stranded exactly if neither write of the `forwarding` state
      arrived and the call succeeded. */
  lemma {:induction false} StrandedAfterFirstCallIff<W(!new)>(x: Setting<W>, w: W, a: bool, b: bool)
    requires Idempotent(x) && Untouched(x, w) && x.steps != []
    ensures Stranded(x, Apply(x.steps, Reach(x.steps, w, [a, b, true]), Crash))
            <==> !a && !b && Execute(x.steps[0], w).1
  {
    FirstCall(x.steps, w, a, b);
    RunIsExact(x, w, [a, b, true]);
    RemainingIsExact(x, Reach(x.steps, w, [a, b, true]));
  }
}
