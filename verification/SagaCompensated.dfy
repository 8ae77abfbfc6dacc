/** What `compensating` in the store means when nothing is assumed of crashes, lost writes and failures:
    the process may die at any point of compensation, and every write but the first may be lost
    (saga.go:226-264, 311-336, 381-413). */
module SagaCompensated {
  import opened Prelude
  import opened Saga
  import opened SagaMachine

  /** From step c on: above a step that is not in effect no undoable step is. */
  ghost predicate NoGap<W>(x: Setting<W>, w: W, c: nat) {
    forall j: nat, k: nat | c <= j < k < |x.steps| && x.applied(w, j) == 0 && x.steps[k].compensate.Some? ::
      x.applied(w, k) == 0
  }

  /** Where a crash would send the saga back to. */
  function Restart(disk: Option<Instance>): nat {
    if disk.Some? && disk.value.state == Forwarding then disk.value.currentStep else 0
  }

  ghost predicate Above<W>(x: Setting<W>, w: W, k: nat) {
    forall j: nat | k <= j < |x.steps| && x.steps[j].compensate.Some? :: x.applied(w, j) == 0
  }

  /** All steps from the restart point up to `called` have been called, and are in effect. */
  ghost predicate Advancing<W>(x: Setting<W>, s: State<W>, called: nat) {
    && Restart(s.disk) <= s.mem.currentStep <= called <= |x.steps|
    && forall j: nat | Restart(s.disk) <= j < called :: x.applied(s.world, j) > 0
  }

  /** Step `mem.currentStep` failed, and no undoable step from k on is in effect. */
  ghost predicate Withdrawing<W>(x: Setting<W>, s: State<W>, k: nat) {
    && k <= s.mem.currentStep < |x.steps| && Restart(s.disk) <= s.mem.currentStep
    && x.applied(s.world, s.mem.currentStep) == 0 && Above(x, s.world, k)
  }

  ghost predicate Alive<W>(x: Setting<W>, s: State<W>) {
    match s.pc
    case Idle => true
    case Begin => x.steps != [] && s.mem == Fresh(|x.steps|) && Advancing(x, s, 0)
    case Mark(i) => i < |x.steps| && Advancing(x, s, i)
    case Call(i) => i < |x.steps| && Advancing(x, s, i) && s.mem.currentStep == i
    case Recall(i) => i < |x.steps| && Advancing(x, s, i) && s.mem.currentStep == i
    case Record(i) => i < |x.steps| && Advancing(x, s, i + 1) && s.mem.currentStep == i
    case Undo(k) => Withdrawing(x, s, k)
    case UndoSave(k) => Withdrawing(x, s, k)
    case Finish(out) => out == Completed || out == Failed || (out == Compensating && NoneLeft(x, s.world))
  }

  predicate Unfinished(inst: Instance) { inst.state == Started || inst.state == Forwarding }

  ghost predicate Sound<W>(x: Setting<W>, s: State<W>) {
    && Alive(x, s)
    && (s.pc != Idle ==> s.disk.Some? && Unfinished(s.disk.value))
    && (s.pc != Idle && !s.pc.Begin? && !s.pc.Finish? ==> s.mem.state == Forwarding)
    && match s.disk
       case None => Untouched(x, s.world)
       case Some(inst) =>
         && (Unfinished(inst) ==> NoGap(x, s.world, Restart(s.disk)))
         && (inst.state == Compensating ==> NoneLeft(x, s.world))
  }

  lemma {:induction false} CallIsSound<W(!new)>(x: Setting<W>, s: State<W>, saved: bool)
    requires Idempotent(x) && Sound(x, s) && (s.pc.Call? || s.pc.Recall?)
    ensures Sound(x, Move(x.steps, s, saved))
  {
    assert ExecutesOnce(x, s.pc.i, s.world);
  }

  lemma {:induction false} WriteIsSound<W>(x: Setting<W>, s: State<W>, saved: bool)
    requires Sound(x, s) && (s.pc.Begin? || s.pc.Mark? || s.pc.Record? || s.pc.UndoSave? || s.pc.Finish?)
    ensures Sound(x, Move(x.steps, s, saved))
  {
  }

  lemma {:induction false} UndoIsSound<W(!new)>(x: Setting<W>, s: State<W>, saved: bool)
    requires Idempotent(x) && Sound(x, s) && s.pc.Undo?
    ensures Sound(x, Move(x.steps, s, saved))
  {
    var k := s.pc.k;
    if k > 0 && x.steps[k - 1].compensate.Some? { assert CompensatesOnce(x, k - 1, s.world); }
  }

  lemma {:induction false} StepIsSound<W(!new)>(x: Setting<W>, s: State<W>, e: Event)
    requires Idempotent(x) && Sound(x, s) && StartsOnce(s, e)
    ensures Sound(x, Apply(x.steps, s, e))
  {
    if e.Go? {
      if s.pc.Call? || s.pc.Recall? {
        CallIsSound(x, s, e.saved);
      } else if s.pc.Undo? {
        UndoIsSound(x, s, e.saved);
      } else if s.pc != Idle {
        WriteIsSound(x, s, e.saved);
      }
    }
  }

  /** Whatever crashed, failed or got lost, and wherever: a saga stored as `compensating` has no
      undoable step in effect. */
  lemma {:induction false} CompensatingIsClean<W(!new)>(x: Setting<W>, w: W, events: seq<Event>)
    requires Idempotent(x) && Untouched(x, w) && AllStartOnce(x, Initial(|x.steps|, w), events)
    ensures var s := Run(x.steps, Initial(|x.steps|, w), events);
            Sound(x, s) && (s.disk.Some? && s.disk.value.state == Compensating ==> NoneLeft(x, s.world))
  {
    if events != [] {
      var before := events[..|events| - 1];
      assert forall k | 0 <= k < |before| :: before[..k] == events[..k];
      CompensatingIsClean(x, w, before);
      StepIsSound(x, Run(x.steps, Initial(|x.steps|, w), before), events[|events| - 1]);
    }
  }

  lemma {:induction false} OthersKeepSound<W>(x: Setting<W>, s: State<W>, w1: W)
    requires Sound(x, s) && SameFor(x, s.world, w1)
    ensures Sound(x, s.(world := w1))
  {
  }

  /** The same for a saga that shares its world with others. */
  lemma {:induction false} CompensatingIsCleanAmongOthers<W(!new)>(x: Setting<W>, w: W, items: seq<Item<W>>)
    requires Idempotent(x) && Untouched(x, w) && AllowedAmong(x, Initial(|x.steps|, w), items, false, false)
    ensures var s := RunAmong(x.steps, Initial(|x.steps|, w), items);
            Sound(x, s) && (s.disk.Some? && s.disk.value.state == Compensating ==> NoneLeft(x, s.world))
  {
    if items != [] {
      var before := items[..|items| - 1];
      CompensatingIsCleanAmongOthers(x, w, before);
      var s := RunAmong(x.steps, Initial(|x.steps|, w), before);
      match items[|items| - 1]
      case Own(e) => StepIsSound(x, s, e);
      case Elsewhere(w1) => OthersKeepSound(x, s, w1);
    }
  }
}
