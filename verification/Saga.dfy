/** The saga engine of packages/payment-util/outbox/saga.go: what one synchronous run
    computes, and a small-step machine in which the process may die at every point.

    `W` is everything outside the coordinator (business systems, their future failures,
    the shared payload). A business call is therefore a function of `W`; nothing is
    assumed about it unless a lemma says so. */
module Saga {
  import opened Prelude

  datatype SagaState = Started | Forwarding | Completed | Compensating | Failed
  datatype StepStatus = Pending | Running | Done | Compensated | Broken

  datatype Step<!W> = Step(name: string, execute: Option<W -> (W, bool)>, compensate: Option<W -> (W, bool)>)
  datatype Instance = Instance(state: SagaState, currentStep: nat, results: seq<StepStatus>)
  datatype Call = Exec(step: nat) | Comp(step: nat)

  /** One forward call; a step without `Execute` reports an error. */
  function Execute<W>(step: Step<W>, w: W): (r: (W, bool)) {
    if step.execute.None? then (w, false) else (step.execute.value)(w)
  }

  function Compensate<W>(step: Step<W>, w: W): (r: (W, bool))
    requires step.compensate.Some?
  {
    (step.compensate.value)(w)
  }

  // ---------------------------------------------------------------- one synchronous run

  /** The world after the forward calls of steps 0..k-1. */
  function World<W>(steps: seq<Step<W>>, w: W, k: nat): W
    requires k <= |steps|
  {
    if k == 0 then w else Execute(steps[k - 1], World(steps, w, k - 1)).0
  }

  ghost predicate Fails<W>(steps: seq<Step<W>>, w: W, i: nat)
    requires i < |steps|
  {
    !Execute(steps[i], World(steps, w, i)).1
  }

  /** Step i is the first one whose forward call reports an error. */
  ghost predicate FailsFirst<W>(steps: seq<Step<W>>, w: W, i: nat) {
    i < |steps| && Fails(steps, w, i) && forall j :: 0 <= j < i ==> !Fails(steps, w, j)
  }

  function Execs(k: nat): (calls: seq<Call>) {
    seq(k, i requires 0 <= i => Exec(i))
  }

  /** The compensators owed for steps k-1 down to `stop`: latest step first, steps without a
      compensator left out. */
  function Owed<W>(steps: seq<Step<W>>, k: nat, stop: nat): (calls: seq<Call>)
    requires k <= |steps|
  {
    if k <= stop then []
    else (if steps[k - 1].compensate.Some? then [Comp(k - 1)] else []) + Owed(steps, k - 1, stop)
  }

  lemma {:induction false} OwedExtends<W>(steps: seq<Step<W>>, k: nat, stop: nat)
    requires stop < k <= |steps|
    ensures Owed(steps, k, stop) == Owed(steps, k, stop + 1) + if steps[stop].compensate.Some? then [Comp(stop)] else []
  {
    if stop + 1 < k { OwedExtends(steps, k - 1, stop); }
  }

  /** Compensation is clean, or it stops at the step whose compensator failed. */
  datatype Undone<W> = Undone(world: W, stop: nat, clean: bool)

  /** What compensating steps k-1..0 does from world `w`. */
  function Rollback<W>(steps: seq<Step<W>>, k: nat, w: W): (u: Undone<W>)
    requires k <= |steps|
    ensures if u.clean then u.stop == 0 else u.stop < k && steps[u.stop].compensate.Some?
  {
    if k == 0 then Undone(w, 0, true)
    else if steps[k - 1].compensate.None? then Rollback(steps, k - 1, w)
    else
      var (w1, ok) := Compensate(steps[k - 1], w);
      if ok then Rollback(steps, k - 1, w1) else Undone(w1, k - 1, false)
  }

  /** Called in world `w`, this step does not disturb `view`, or its compensator undoes that: a
      failed step and a step without a compensator leave the view alone, and when the compensator
      succeeds in a world that looks like the one the step left, the old view is back. */
  ghost predicate Undoable<W(!new), V>(step: Step<W>, view: W -> V, w: W) {
    var (w1, ok) := Execute(step, w);
    if !ok || step.compensate.None? then view(w1) == view(w)
    else forall u | view(u) == view(w1) && Compensate(step, u).1 :: view(Compensate(step, u).0) == view(w)
  }

  /** `view` is the part of the world a saga must not disturb. Steps need to be undoable only in the
      worlds in which a saga started in `w` calls them. */
  ghost predicate Reversible<W(!new), V>(steps: seq<Step<W>>, view: W -> V, w: W) {
    forall i | 0 <= i < |steps| && (forall j | 0 <= j < i :: !Fails(steps, w, j)) ::
      Undoable(steps[i], view, World(steps, w, i))
  }

  /** Undoing the last of k successful steps gives the view before it. */
  lemma {:induction false} LastUndone<W(!new), V>(steps: seq<Step<W>>, view: W -> V, w: W, u: W, k: nat)
    requires Reversible(steps, view, w) && 0 < k <= |steps| && (forall j :: 0 <= j < k ==> !Fails(steps, w, j))
    requires view(u) == view(World(steps, w, k))
    ensures steps[k - 1].compensate.None? ==> view(u) == view(World(steps, w, k - 1))
    ensures steps[k - 1].compensate.Some? && Compensate(steps[k - 1], u).1 ==>
              view(Compensate(steps[k - 1], u).0) == view(World(steps, w, k - 1))
  {
    var before := World(steps, w, k - 1);
    assert !Fails(steps, w, k - 1);
    assert World(steps, w, k) == Execute(steps[k - 1], before).0;
    assert Undoable(steps[k - 1], view, before);
  }

  lemma {:induction false} RollbackRestores<W(!new), V>(steps: seq<Step<W>>, view: W -> V, w: W, u: W, k: nat)
    requires Reversible(steps, view, w)
    requires k <= |steps|
    requires forall j :: 0 <= j < k ==> !Fails(steps, w, j)
    requires view(u) == view(World(steps, w, k))
    ensures Rollback(steps, k, u).clean ==> view(Rollback(steps, k, u).world) == view(w)
  {
    if k > 0 {
      LastUndone(steps, view, w, u, k);
      if steps[k - 1].compensate.None? {
        RollbackRestores(steps, view, w, u, k - 1);
      } else if Compensate(steps[k - 1], u).1 {
        RollbackRestores(steps, view, w, Compensate(steps[k - 1], u).0, k - 1);
      }
    }
  }

  /** A saga that failed at step i and compensated cleanly leaves no trace on `view`. */
  lemma {:induction false} CleanCompensationRestores<W(!new), V>(steps: seq<Step<W>>, view: W -> V, w: W, i: nat)
    requires Reversible(steps, view, w) && FailsFirst(steps, w, i)
    requires Rollback(steps, i, World(steps, w, i + 1)).clean
    ensures view(Rollback(steps, i, World(steps, w, i + 1)).world) == view(w)
  {
    var u := Execute(steps[i], World(steps, w, i)).0;
    assert World(steps, w, i + 1) == u;
    assert Fails(steps, w, i) && Undoable(steps[i], view, World(steps, w, i));
    RollbackRestores(steps, view, w, u, i);
  }
}
