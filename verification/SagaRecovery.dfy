/** What an uninterrupted resumption of a stored saga does: which steps are called again, what happens
    if one fails, and what is left in the end (saga.go:381-413). */
module SagaRecovery {
  import opened Prelude
  import opened Saga
  import opened SagaMachine
  import opened SagaRun

  /** The steps from c on, and the forward calls of the first m of them. */
  function Rest<W>(steps: seq<Step<W>>, c: nat): seq<Step<W>> {
    if c < |steps| then steps[c..] else []
  }

  function ExecsFrom(c: nat, m: nat): (calls: seq<Call>) {
    seq(m, i requires 0 <= i => Exec(c + i))
  }

  /** The first m steps from c on were called again, in order, and all succeeded. */
  ghost predicate Retried<W>(steps: seq<Step<W>>, w: W, calls0: seq<Call>, s: State<W>, c: nat, m: nat) {
    && m <= |Rest(steps, c)|
    && s.world == World(Rest(steps, c), w, m) && s.calls == calls0 + ExecsFrom(c, m)
    && (forall j: nat | j < m :: !Fails(Rest(steps, c), w, j))
  }

  /** Steps from c up to f are recorded as done, and of the steps before f those from `stop` on that
      have a compensator as compensated; everything else is as it was. */
  ghost predicate Rewritten<W>(steps: seq<Step<W>>, before: seq<StepStatus>, now: seq<StepStatus>, c: nat, f: nat,
                               stop: nat)
  {
    |now| == |before| == |steps| && forall j: nat | j < |steps| ::
      now[j] == if stop <= j < f && steps[j].compensate.Some? then Compensated
                else if c <= j < f then Done else before[j]
  }

  /** The saga stored as `inst` was resumed in world `w` and has ended as `out`. Completed: every step
      from the stored one on was called, in order, and succeeded. Otherwise one of them failed first,
      and after its call came the compensators of all steps before it, the resumed ones and the earlier
      ones, in reverse order: all of them, or those up to and including one that failed. */
  ghost predicate Recovers<W>(steps: seq<Step<W>>, w: W, calls0: seq<Call>, inst: Instance, s: State<W>,
                              out: SagaState) {
    var c, f := inst.currentStep, s.mem.currentStep;
    var rest := Rest(steps, c);
    match out
    case Completed =>
      && Retried(steps, w, calls0, s, c, |rest|) && f == c + |rest|
      && Rewritten(steps, inst.results, s.mem.results, c, f, f)
    case Compensating => BacksOut(steps, w, calls0, inst, s) && Backout(steps, w, c, f).clean
    case Failed => BacksOut(steps, w, calls0, inst, s) && !Backout(steps, w, c, f).clean
    case _ => false
  }

  /** The compensation after step f failed. */
  ghost function Backout<W>(steps: seq<Step<W>>, w: W, c: nat, f: nat): Undone<W>
    requires c <= f < |steps|
  {
    Rollback(steps, f, World(Rest(steps, c), w, f - c + 1))
  }

  ghost predicate BacksOut<W>(steps: seq<Step<W>>, w: W, calls0: seq<Call>, inst: Instance, s: State<W>) {
    var c, f := inst.currentStep, s.mem.currentStep;
    && c <= f < |steps| && FailsFirst(Rest(steps, c), w, f - c)
    && var u := Backout(steps, w, c, f);
    && s.world == u.world && BackedOutTo(steps, calls0, inst, s, u.stop)
  }

  /** The compensators down to step `stop` have been called. */
  ghost predicate BackedOutTo<W>(steps: seq<Step<W>>, calls0: seq<Call>, inst: Instance, s: State<W>, stop: nat) {
    var c, f := inst.currentStep, s.mem.currentStep;
    && c <= f < |steps| && stop <= f
    && s.calls == calls0 + ExecsFrom(c, f - c + 1) + Owed(steps, f, stop)
    && Rewritten(steps, inst.results, s.mem.results, c, f, stop)
  }

  ghost predicate BackingOut<W>(steps: seq<Step<W>>, w: W, calls0: seq<Call>, inst: Instance, s: State<W>, k: nat) {
    var c, f := inst.currentStep, s.mem.currentStep;
    && BackedOutTo(steps, calls0, inst, s, k) && FailsFirst(Rest(steps, c), w, f - c)
    && Backout(steps, w, c, f) == Rollback(steps, k, s.world)
  }

  /** A resumption at any of its points. */
  ghost predicate OnRecovery<W>(steps: seq<Step<W>>, w: W, calls0: seq<Call>, inst: Instance, s: State<W>) {
    var c := inst.currentStep;
    match s.pc
    case Recall(i) =>
      && c <= i < |steps| && s.mem.currentStep == i && Retried(steps, w, calls0, s, c, i - c)
      && Rewritten(steps, inst.results, s.mem.results, c, i, i)
    case Undo(k) => BackingOut(steps, w, calls0, inst, s, k)
    case UndoSave(k) => BackingOut(steps, w, calls0, inst, s, k)
    case Finish(out) => Recovers(steps, w, calls0, inst, s, out)
    case Idle => Recovers(steps, w, calls0, inst, s, s.mem.state)
    case _ => false
  }

  lemma {:induction false} RecallMove<W>(steps: seq<Step<W>>, w: W, calls0: seq<Call>, inst: Instance, s: State<W>,
                                         saved: bool)
    requires OnRecovery(steps, w, calls0, inst, s) && s.pc.Recall?
    ensures OnRecovery(steps, w, calls0, inst, Move(steps, s, saved))
  {
    var c, i := inst.currentStep, s.pc.i;
    var rest, s1 := Rest(steps, c), Move(steps, s, saved);
    assert rest[i - c] == steps[i];
    assert ExecsFrom(c, i - c + 1) == ExecsFrom(c, i - c) + [Exec(i)];
    assert s1.calls == calls0 + ExecsFrom(c, i - c + 1);
    assert s1.world == World(rest, w, i - c + 1);
    assert Fails(rest, w, i - c) <==> s1.pc == Undo(i);
    if s1.pc == Undo(i) { assert s1.calls == calls0 + ExecsFrom(c, i - c + 1) + Owed(steps, i, i); }
  }

  lemma {:induction false} OneMoreBackedOut<W>(steps: seq<Step<W>>, calls0: seq<Call>, inst: Instance, s: State<W>,
                                               saved: bool)
    requires s.pc.Undo? && s.pc.k > 0 && BackedOutTo(steps, calls0, inst, s, s.pc.k)
    ensures Move(steps, s, saved).mem.currentStep == s.mem.currentStep
    ensures BackedOutTo(steps, calls0, inst, Move(steps, s, saved), s.pc.k - 1)
  {
    var c, f, k := inst.currentStep, s.mem.currentStep, s.pc.k;
    OwedExtends(steps, f, k - 1);
    assert Move(steps, s, saved).calls == calls0 + ExecsFrom(c, f - c + 1) + Owed(steps, f, k - 1);
  }

  lemma {:induction false} UndoMove<W>(steps: seq<Step<W>>, w: W, calls0: seq<Call>, inst: Instance, s: State<W>,
                                       saved: bool)
    requires OnRecovery(steps, w, calls0, inst, s) && s.pc.Undo?
    ensures OnRecovery(steps, w, calls0, inst, Move(steps, s, saved))
  {
    if s.pc.k > 0 {
      OneMoreBackedOut(steps, calls0, inst, s, saved);
    } else {
      assert Rollback(steps, 0, s.world) == Undone(s.world, 0, true);
    }
  }

  lemma {:induction false} StoreMove<W>(steps: seq<Step<W>>, w: W, calls0: seq<Call>, inst: Instance, s: State<W>,
                                        saved: bool)
    requires OnRecovery(steps, w, calls0, inst, s) && !s.pc.Recall? && !s.pc.Undo?
    ensures OnRecovery(steps, w, calls0, inst, Move(steps, s, saved))
  {
  }

  lemma {:induction false} FirstRecall<W>(steps: seq<Step<W>>, s0: State<W>, inst: Instance)
    requires s0.pc == Idle && s0.disk == Some(inst) && inst.state == Forwarding && |inst.results| == |steps|
    ensures OnRecovery(steps, s0.world, s0.calls, inst, Apply(steps, s0, Resume))
  {
    assert s0.calls + ExecsFrom(inst.currentStep, 0) == s0.calls;
  }

  /** Every uninterrupted resumption of a stored `forwarding` instance is on course, and once its worker
      has made its last write it has ended as `Recovers` says. */
  lemma {:induction false} RunFromStored<W>(steps: seq<Step<W>>, s0: State<W>, inst: Instance, saves: seq<bool>)
    requires s0.pc == Idle && s0.disk == Some(inst) && inst.state == Forwarding && |inst.results| == |steps|
    ensures var s := Run(steps, s0, [Resume] + Gos(saves));
            && OnRecovery(steps, s0.world, s0.calls, inst, s)
            && (s.pc == Idle ==> Recovers(steps, s0.world, s0.calls, inst, s, s.mem.state))
  {
    if saves == [] {
      assert [Resume] + Gos([]) == [] + [Resume];
      RunSnoc(steps, s0, [], Resume);
      FirstRecall(steps, s0, inst);
    } else {
      var before, saved := saves[..|saves| - 1], saves[|saves| - 1];
      RunFromStored(steps, s0, inst, before);
      assert before + [saved] == saves;
      GoOn(steps, s0, Resume, before, saved);
      AnyRecoveryMove(steps, s0.world, s0.calls, inst, Run(steps, s0, [Resume] + Gos(before)), saved);
    }
  }

  lemma {:induction false} AnyRecoveryMove<W>(steps: seq<Step<W>>, w: W, calls0: seq<Call>, inst: Instance, s: State<W>,
                                             saved: bool)
    requires OnRecovery(steps, w, calls0, inst, s)
    ensures OnRecovery(steps, w, calls0, inst, Move(steps, s, saved))
  {
    if s.pc.Recall? {
      RecallMove(steps, w, calls0, inst, s, saved);
    } else if s.pc.Undo? {
      UndoMove(steps, w, calls0, inst, s, saved);
    } else {
      StoreMove(steps, w, calls0, inst, s, saved);
    }
  }
}
