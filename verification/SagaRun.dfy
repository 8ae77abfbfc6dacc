/** What one uninterrupted run of the machine does: the trace of business calls, the world it
    leaves behind, the statuses and the final state (saga.go:230-267, 311-336). */
module SagaRun {
  import opened Saga
  import opened SagaMachine

  /** Steps before i done, step i in the given status, later steps untouched. */
  ghost predicate ResultsAt(results: seq<StepStatus>, n: nat, i: nat, status: StepStatus) {
    |results| == n && forall j: nat | j < n :: results[j] == if j < i then Done else if j == i then status else Pending
  }

  /** Step f failed; of the steps before it, those from `stop` on that have a compensator are
      marked compensated. */
  ghost predicate ResultsUndone<W>(steps: seq<Step<W>>, results: seq<StepStatus>, f: nat, stop: nat) {
    |results| == |steps| && forall j: nat | j < |steps| ::
      results[j] == if j == f then Broken else if j > f then Pending
                    else if j >= stop && steps[j].compensate.Some? then Compensated else Done
  }

  /** The first i calls were made and all succeeded. */
  ghost predicate Progress<W>(steps: seq<Step<W>>, w: W, calls0: seq<Call>, s: State<W>, i: nat) {
    && i <= |steps| && s.world == World(steps, w, i) && s.calls == calls0 + Execs(i)
    && (forall j: nat | j < i :: !Fails(steps, w, j))
  }

  /** Step `mem.currentStep` failed and the compensators down to step `stop` have been called. */
  ghost predicate Unwound<W>(steps: seq<Step<W>>, w: W, calls0: seq<Call>, s: State<W>, stop: nat) {
    var f := s.mem.currentStep;
    && FailsFirst(steps, w, f) && stop <= f
    && s.calls == calls0 + Execs(f + 1) + Owed(steps, f, stop)
    && ResultsUndone(steps, s.mem.results, f, stop)
  }

  ghost predicate OnRun<W>(steps: seq<Step<W>>, w: W, calls0: seq<Call>, s: State<W>) {
    var n := |steps|;
    match s.pc
    case Begin => s.mem == Fresh(n) && s.world == w && s.calls == calls0 && n > 0
    case Mark(i) => i < n && Progress(steps, w, calls0, s, i) && ResultsAt(s.mem.results, n, i, Pending)
    case Call(i) => i < n && Progress(steps, w, calls0, s, i) &&
      ResultsAt(s.mem.results, n, i, Running) && s.mem.currentStep == i
    case Record(i) => i < n && Progress(steps, w, calls0, s, i + 1) && ResultsAt(s.mem.results, n, i, Running)
    case Undo(k) => StillUndoing(steps, w, calls0, s, k)
    case UndoSave(k) => StillUndoing(steps, w, calls0, s, k)
    case Finish(out) => RunEnds(steps, w, calls0, s, out)
    case Idle => RunEnds(steps, w, calls0, s, s.mem.state)
    case Recall(_) => false
  }

  ghost predicate StillUndoing<W>(steps: seq<Step<W>>, w: W, calls0: seq<Call>, s: State<W>, k: nat) {
    && Unwound(steps, w, calls0, s, k)
    && Rollback(steps, s.mem.currentStep, World(steps, w, s.mem.currentStep + 1)) == Rollback(steps, k, s.world)
  }

  /** How a run ends. Completed: every step was called, in order, and succeeded. Otherwise step
      `currentStep` failed first, and after its call come the owed compensators in reverse order:
      all of them (`compensating`), or those up to and including one that failed (`failed`). */
  ghost predicate RunEnds<W>(steps: seq<Step<W>>, w: W, calls0: seq<Call>, s: State<W>, out: SagaState) {
    var n, f := |steps|, s.mem.currentStep;
    match out
    case Completed => Progress(steps, w, calls0, s, n) && ResultsAt(s.mem.results, n, n, Pending)
    case Compensating =>
      && Unwound(steps, w, calls0, s, 0)
      && Rollback(steps, f, World(steps, w, f + 1)) == Undone(s.world, 0, true)
    case Failed =>
      && FailsFirst(steps, w, f)
      && var u := Rollback(steps, f, World(steps, w, f + 1));
      && !u.clean && s.world == u.world && Unwound(steps, w, calls0, s, u.stop)
    case _ => false
  }

  lemma {:induction false} ForwardMove<W>(steps: seq<Step<W>>, w: W, calls0: seq<Call>, s: State<W>, saved: bool)
    requires OnRun(steps, w, calls0, s) && (s.pc.Begin? || s.pc.Mark? || s.pc.Call? || s.pc.Record?)
    ensures OnRun(steps, w, calls0, Move(steps, s, saved))
  {
    if s.pc.Call? {
      var i, s1 := s.pc.i, Move(steps, s, saved);
      assert Execs(i + 1) == Execs(i) + [Exec(i)];
      assert s1.calls == calls0 + Execs(i + 1) + Owed(steps, i, i);
      assert Fails(steps, w, i) <==> s1.pc == Undo(i);
    }
  }

  lemma {:induction false} OneMoreUndone<W>(steps: seq<Step<W>>, w: W, calls0: seq<Call>, s: State<W>, saved: bool)
    requires s.pc.Undo? && s.pc.k > 0 && Unwound(steps, w, calls0, s, s.pc.k)
    ensures Move(steps, s, saved).mem.currentStep == s.mem.currentStep
    ensures Unwound(steps, w, calls0, Move(steps, s, saved), s.pc.k - 1)
  {
    var f, k := s.mem.currentStep, s.pc.k;
    OwedExtends(steps, f, k - 1);
    assert Move(steps, s, saved).calls == calls0 + Execs(f + 1) + Owed(steps, f, k - 1);
  }

  lemma {:induction false} BackwardMove<W>(steps: seq<Step<W>>, w: W, calls0: seq<Call>, s: State<W>, saved: bool)
    requires OnRun(steps, w, calls0, s) && s.pc.Undo?
    ensures OnRun(steps, w, calls0, Move(steps, s, saved))
  {
    if s.pc.k > 0 {
      OneMoreUndone(steps, w, calls0, s, saved);
    } else {
      assert Rollback(steps, 0, s.world) == Undone(s.world, 0, true);
    }
  }

  lemma {:induction false} SavingMove<W>(steps: seq<Step<W>>, w: W, calls0: seq<Call>, s: State<W>, saved: bool)
    requires OnRun(steps, w, calls0, s) && (s.pc.UndoSave? || s.pc.Finish? || s.pc == Idle)
    ensures OnRun(steps, w, calls0, Move(steps, s, saved))
  {
  }

  lemma {:induction false} AnyMove<W>(steps: seq<Step<W>>, w: W, calls0: seq<Call>, s: State<W>, saved: bool)
    requires OnRun(steps, w, calls0, s)
    ensures OnRun(steps, w, calls0, Move(steps, s, saved))
  {
    if s.pc.Undo? {
      BackwardMove(steps, w, calls0, s, saved);
    } else if s.pc.UndoSave? || s.pc.Finish? || s.pc == Idle {
      SavingMove(steps, w, calls0, s, saved);
    } else {
      ForwardMove(steps, w, calls0, s, saved);
    }
  }

  lemma {:induction false} FirstMove<W>(steps: seq<Step<W>>, s0: State<W>)
    requires s0.pc == Idle && steps != []
    ensures OnRun(steps, s0.world, s0.calls, Run(steps, s0, [Start(true)] + Gos([])))
  {
    assert [Start(true)] + Gos([]) == [] + [Start(true)];
    RunSnoc(steps, s0, [], Start(true));
  }

  lemma {:induction false} StaysOnRun<W>(steps: seq<Step<W>>, s0: State<W>, saves: seq<bool>)
    requires s0.pc == Idle && steps != []
    ensures OnRun(steps, s0.world, s0.calls, Run(steps, s0, [Start(true)] + Gos(saves)))
  {
    if saves == [] {
      FirstMove(steps, s0);
    } else {
      var before, saved := saves[..|saves| - 1], saves[|saves| - 1];
      StaysOnRun(steps, s0, before);
      assert before + [saved] == saves;
      GoOn(steps, s0, Start(true), before, saved);
      AnyMove(steps, s0.world, s0.calls, Run(steps, s0, [Start(true)] + Gos(before)), saved);
    }
  }

  /** Every run that is started in an idle machine and not interrupted is on course, and once its
      worker has made its last write it has ended as `RunEnds` says. */
  lemma {:induction false} RunFromStart<W>(steps: seq<Step<W>>, s0: State<W>, saves: seq<bool>)
    requires s0.pc == Idle && steps != []
    ensures var s := Run(steps, s0, [Start(true)] + Gos(saves));
            && OnRun(steps, s0.world, s0.calls, s)
            && (s.pc == Idle ==> RunEnds(steps, s0.world, s0.calls, s, s.mem.state))
  {
    StaysOnRun(steps, s0, saves);
  }

  /** A `compensating` saga has left the part of the world it must not disturb as it was. */
  lemma {:induction false} CompensatedRunRestores<W(!new), V>(steps: seq<Step<W>>, view: W -> V, s0: State<W>,
                                                                 saves: seq<bool>)
    requires s0.pc == Idle && steps != [] && Reversible(steps, view, s0.world)
    ensures var s := Run(steps, s0, [Start(true)] + Gos(saves));
            s.pc == Idle && s.mem.state == Compensating ==> view(s.world) == view(s0.world)
  {
    var s := Run(steps, s0, [Start(true)] + Gos(saves));
    RunFromStart(steps, s0, saves);
    if s.pc == Idle && s.mem.state == Compensating {
      CleanCompensationRestores(steps, view, s0.world, s.mem.currentStep);
    }
  }

  /** How often each undoable step is in effect. */
  ghost function UndoableLedger<W(!new)>(x: Setting<W>): W -> seq<nat> {
    w => seq(|x.steps|, j requires 0 <= j < |x.steps| => InEffect(x, w, j))
  }

  function InEffect<W>(x: Setting<W>, w: W, j: nat): nat
    requires j < |x.steps|
  {
    if x.steps[j].compensate.Some? then x.applied(w, j) else 0
  }

  lemma SameLedger<W(!new)>(x: Setting<W>, u: W, w: W)
    ensures UndoableLedger(x)(u) == UndoableLedger(x)(w)
            <==> forall j: nat | j < |x.steps| :: InEffect(x, u, j) == InEffect(x, w, j)
  {
    var view := UndoableLedger(x);
    assert forall j: nat | j < |x.steps| :: view(u)[j] == InEffect(x, u, j) && view(w)[j] == InEffect(x, w, j);
  }

  lemma {:induction false} AppliedSoFar<W(!new)>(x: Setting<W>, w: W, i: nat)
    requires Idempotent(x) && Untouched(x, w) && i <= |x.steps| && forall j | 0 <= j < i :: !Fails(x.steps, w, j)
    ensures Prefix(x, World(x.steps, w, i), i)
  {
    if i > 0 {
      AppliedSoFar(x, w, i - 1);
      assert ExecutesOnce(x, i - 1, World(x.steps, w, i - 1)) && !Fails(x.steps, w, i - 1);
    }
  }

  /** What the coordinator asks of its steps is enough: for idempotent steps none of which is in
      effect yet, the ledger of the undoable steps is such a view. */
  lemma {:induction false} IdempotentIsReversible<W(!new)>(x: Setting<W>, w: W)
    requires Idempotent(x) && Untouched(x, w)
    ensures Reversible(x.steps, UndoableLedger(x), w)
  {
    var view := UndoableLedger(x);
    forall i | 0 <= i < |x.steps| && (forall j | 0 <= j < i :: !Fails(x.steps, w, j))
      ensures Undoable(x.steps[i], view, World(x.steps, w, i))
    {
      AppliedSoFar(x, w, i);
      UndoableWhenUntouched(x, World(x.steps, w, i), i);
    }
  }

  lemma {:induction false} UndoableWhenUntouched<W(!new)>(x: Setting<W>, w: W, i: nat)
    requires Idempotent(x) && i < |x.steps| && x.applied(w, i) == 0
    ensures Undoable(x.steps[i], UndoableLedger(x), w)
  {
    var view := UndoableLedger(x);
    var (w1, ok) := Execute(x.steps[i], w);
    assert ExecutesOnce(x, i, w);
    if !ok || x.steps[i].compensate.None? {
      SameLedger(x, w1, w);
    } else {
      forall u | view(u) == view(w1) && Compensate(x.steps[i], u).1
        ensures view(Compensate(x.steps[i], u).0) == view(w)
      {
        assert CompensatesOnce(x, i, u);
        SameLedger(x, u, w1);
        var u1 := Compensate(x.steps[i], u).0;
        forall j: nat | j < |x.steps| ensures InEffect(x, u1, j) == InEffect(x, w, j) {
          assert InEffect(x, u, j) == InEffect(x, w1, j);
        }
        SameLedger(x, u1, w);
      }
    }
  }

  /** So an uninterrupted run of such a saga that ends `compensating` has no undoable step in effect,
      without any further assumption; the debit of the shop is one. */
  lemma {:induction false} CompensatedRunLeavesNothing<W(!new)>(x: Setting<W>, w: W, saves: seq<bool>)
    requires Idempotent(x) && Untouched(x, w) && x.steps != []
    ensures var s := Run(x.steps, Initial(|x.steps|, w), [Start(true)] + Gos(saves));
            s.pc == Idle && s.mem.state == Compensating ==> NoneLeft(x, s.world)
  {
    IdempotentIsReversible(x, w);
    CompensatedRunRestores(x.steps, UndoableLedger(x), Initial(|x.steps|, w), saves);
    SameLedger(x, Run(x.steps, Initial(|x.steps|, w), [Start(true)] + Gos(saves)).world, w);
    NothingInLedger(x, Run(x.steps, Initial(|x.steps|, w), [Start(true)] + Gos(saves)).world, w);
  }

  lemma NothingInLedger<W(!new)>(x: Setting<W>, u: W, w: W)
    requires Untouched(x, w)
    ensures (forall j: nat | j < |x.steps| :: InEffect(x, u, j) == InEffect(x, w, j)) ==> NoneLeft(x, u)
  {
    if forall j: nat | j < |x.steps| :: InEffect(x, u, j) == InEffect(x, w, j) {
      forall j: nat | j < |x.steps| && x.steps[j].compensate.Some? ensures x.applied(u, j) == 0 {
        assert InEffect(x, u, j) == InEffect(x, w, j);
      }
    }
  }

  lemma ShopIsReversible()
    ensures Reversible(ShopSetting().steps, UndoableLedger(ShopSetting()), Shop(0, 0, 0))
  {
    ShopIsIdempotent();
    IdempotentIsReversible(ShopSetting(), Shop(0, 0, 0));
  }

  lemma GoOn<W>(steps: seq<Step<W>>, s: State<W>, first: Event, saves: seq<bool>, saved: bool)
    ensures Run(steps, s, [first] + Gos(saves + [saved])) == Move(steps, Run(steps, s, [first] + Gos(saves)), saved)
  {
    assert [first] + Gos(saves + [saved]) == [first] + Gos(saves) + [Go(saved)];
    RunSnoc(steps, s, [first] + Gos(saves), Go(saved));
  }
}
