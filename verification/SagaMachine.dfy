/** The saga engine as a machine that takes one store write or one business call at a
    time, so that the process can die between any two of them and be resumed from the
    last instance that reached the store (saga.go:226-264, 311-336, 381-413). */
module SagaMachine {
  import opened Prelude
  import opened Saga

  /** Where the one worker of a saga stands. */
  datatype Pc =
    | Idle                    // no worker: before Start, after a crash, after the last write
    | Begin                   // the `started` row is stored
    | Mark(i: nat)            // about to store step i as running
    | Call(i: nat)            // about to call step i
    | Record(i: nat)          // step i succeeded, about to store it as completed
    | Undo(k: nat)            // compensating: k-1 is the next step to look at
    | UndoSave(k: nat)        // step k was compensated, about to store that
    | Finish(out: SagaState)  // about to store the final state
    | Recall(i: nat)          // resumed: about to call step i

  datatype State<W> = State(pc: Pc, mem: Instance, disk: Option<Instance>, world: W, calls: seq<Call>)

  /** `Go(saved)` is one move of the worker; `saved` says whether its store write, if it
      makes one, reaches the store. */
  datatype Event = Start(saved: bool) | Go(saved: bool) | Crash | Resume

  function Fresh(n: nat): Instance {
    Instance(Started, 0, seq(n, i => Pending))
  }

  function Write<W>(s: State<W>, mem: Instance, saved: bool, pc: Pc): State<W> {
    s.(mem := mem, disk := if saved then Some(mem) else s.disk, pc := pc)
  }

  /** In-memory instances of a saga with n steps have one result per step. */
  function Set(inst: Instance, i: nat, status: StepStatus): Instance {
    if i < |inst.results| then inst.(results := inst.results[i := status]) else inst
  }

  function Move<W>(steps: seq<Step<W>>, s: State<W>, saved: bool): State<W> {
    var n := |steps|;
    match s.pc
    case Idle => s
    case Begin => Write(s, s.mem.(state := Forwarding), saved, Mark(0))
    case Mark(i) => Write(s, Set(s.mem.(currentStep := i), i, Running), saved, Call(i))
    case Call(i) =>
      if i >= n then s else
      var (w, ok) := Execute(steps[i], s.world);
      var s1 := s.(world := w, calls := s.calls + [Exec(i)]);
      if ok then s1.(pc := Record(i)) else s1.(mem := Set(s.mem, i, Broken), pc := Undo(i))
    case Record(i) =>
      Write(s, Set(s.mem, i, Done), saved, if i + 1 < n then Mark(i + 1) else Finish(Completed))
    case Undo(k) =>
      if k == 0 || k > n then s.(pc := Finish(Compensating))
      else if steps[k - 1].compensate.None? then s.(pc := Undo(k - 1))
      else
        var (w, ok) := Compensate(steps[k - 1], s.world);
        State(if ok then UndoSave(k - 1) else Finish(Failed), Set(s.mem, k - 1, Compensated), s.disk,
              w, s.calls + [Comp(k - 1)])
    case UndoSave(k) => Write(s, s.mem, saved, Undo(k))
    case Finish(out) => Write(s, s.mem.(state := out), saved, Idle)
    case Recall(i) =>
      if i >= n then s else
      var (w, ok) := Execute(steps[i], s.world);
      var s1 := s.(world := w, calls := s.calls + [Exec(i)]);
      if !ok then s1.(pc := Undo(i))
      else s1.(mem := Set(s.mem, i, Done).(currentStep := i + 1),
               pc := if i + 1 < n then Recall(i + 1) else Finish(Completed))
  }

  function Apply<W>(steps: seq<Step<W>>, s: State<W>, e: Event): State<W> {
    match e
    case Start(saved) =>
      if s.pc != Idle || |steps| == 0 || !saved then s
      else s.(pc := Begin, mem := Fresh(|steps|), disk := Some(Fresh(|steps|)))
    case Go(saved) => Move(steps, s, saved)
    case Crash => s.(pc := Idle, mem := Fresh(|steps|))
    case Resume =>
      if s.pc != Idle || s.disk.None? || s.disk.value.state != Forwarding then s
      else s.(mem := s.disk.value,
              pc := if s.disk.value.currentStep < |steps| then Recall(s.disk.value.currentStep) else Finish(Completed))
  }

  /** The state after all the events. */
  function Run<W>(steps: seq<Step<W>>, s: State<W>, events: seq<Event>): State<W> {
    if events == [] then s
    else Apply(steps, Run(steps, s, events[..|events| - 1]), events[|events| - 1])
  }

  lemma RunSnoc<W>(steps: seq<Step<W>>, s: State<W>, events: seq<Event>, e: Event)
    ensures Run(steps, s, events + [e]) == Apply(steps, Run(steps, s, events), e)
  {
    assert (events + [e])[..|events|] == events;
  }

  function Initial<W>(n: nat, w: W): State<W> {
    State(Idle, Fresh(n), None, w, [])
  }

  // ---------------------------------------------------------------- what is assumed of the steps

  /** `applied(w, i)` counts how often step i is in effect in w, `broken(w, i)` says that it is
      known to fail. `stick` chooses whether failures are assumed to be permanent. */
  datatype Setting<!W> = Setting(steps: seq<Step<W>>, applied: (W, nat) -> nat, broken: (W, nat) -> bool, stick: bool)

  /** A call of a step already in effect succeeds and changes nothing, a failed call changes
      nothing. The first of these is what saga.go:380 asks of the steps. */
  ghost predicate ExecutesOnce<W>(x: Setting<W>, i: nat, w: W)
    requires i < |x.steps|
  {
    var (w1, ok) := Execute(x.steps[i], w);
    && (forall j: nat | j < |x.steps| && j != i :: x.applied(w1, j) == x.applied(w, j))
    && x.applied(w1, i) == (if ok && x.applied(w, i) == 0 then 1 else x.applied(w, i))
    && (x.applied(w, i) > 0 ==> ok)
  }

  /** A successful compensator takes its step out of effect, a failed one changes nothing. */
  ghost predicate CompensatesOnce<W>(x: Setting<W>, i: nat, w: W)
    requires i < |x.steps| && x.steps[i].compensate.Some?
  {
    var (w1, ok) := Compensate(x.steps[i], w);
    && (forall j: nat | j < |x.steps| && j != i :: x.applied(w1, j) == x.applied(w, j))
    && x.applied(w1, i) == (if ok then 0 else x.applied(w, i))
  }

  ghost predicate Idempotent<W(!new)>(x: Setting<W>) {
    && (forall i: nat, w | i < |x.steps| :: ExecutesOnce(x, i, w))
    && (forall i: nat, w | i < |x.steps| && x.steps[i].compensate.Some? :: CompensatesOnce(x, i, w))
  }

  /** A step that failed once fails on every later call. */
  ghost predicate FailureSticks<W>(x: Setting<W>, i: nat, w: W)
    requires i < |x.steps|
  {
    var (w1, ok) := Execute(x.steps[i], w);
    && (!ok ==> x.broken(w1, i))
    && (x.broken(w, i) ==> !ok)
    && (forall j: nat | x.broken(w, j) :: x.broken(w1, j))
    && (x.steps[i].compensate.Some? ==> forall j: nat | x.broken(w, j) :: x.broken(Compensate(x.steps[i], w).0, j))
  }

  ghost predicate FailuresStick<W(!new)>(x: Setting<W>) {
    forall i: nat, w | i < |x.steps| :: FailureSticks(x, i, w)
  }

  ghost predicate Assumed<W(!new)>(x: Setting<W>) {
    Idempotent(x) && (x.stick ==> FailuresStick(x))
  }

  // ---------------------------------------------------------------- what the theorem says

  ghost predicate Undoing(pc: Pc) {
    pc.Undo? || pc.UndoSave? || pc == Finish(Compensating) || pc == Finish(Failed)
  }

  /** A saga id is started once. */
  predicate StartsOnce<W>(s: State<W>, e: Event) { e.Start? ==> s.disk.None? }

  ghost predicate AllStartOnce<W>(x: Setting<W>, s: State<W>, events: seq<Event>) {
    forall k | 0 <= k < |events| :: StartsOnce(Run(x.steps, s, events[..k]), events[k])
  }

  /** A saga stored as `forwarding` dies or loses its last write while it is compensated. */
  ghost predicate LeavesForwarding<W>(s: State<W>, e: Event) {
    && (e == Crash || (e == Go(false) && s.pc.Finish?))
    && Undoing(s.pc) && s.disk.Some? && s.disk.value.state == Forwarding
  }

  /** The events of the crash-safety theorem: a saga id is started once. Every other write may be lost
      and the process may die anywhere; only, unless failures stick, a saga stored as `forwarding` must
      neither die nor lose its last write once compensation has begun. */
  ghost predicate Allowed<W>(s: State<W>, e: Event, stick: bool) {
    StartsOnce(s, e) && (LeavesForwarding(s, e) ==> stick)
  }

  ghost predicate AllAllowed<W>(x: Setting<W>, s: State<W>, events: seq<Event>) {
    forall k | 0 <= k < |events| :: Allowed(Run(x.steps, s, events[..k]), events[k], x.stick)
  }

  /** One of the two writes that store a saga as `forwarding` before its first call arrives. */
  ghost predicate IsStored<W>(s: State<W>, e: Event) {
    !(e == Go(false) && s.pc == Mark(0) && s.disk.Some? && s.disk.value.state == Started)
  }

  ghost predicate AllStored<W>(x: Setting<W>, s: State<W>, events: seq<Event>) {
    forall k | 0 <= k < |events| :: IsStored(Run(x.steps, s, events[..k]), events[k])
  }

  /** Every step in effect exactly once. */
  ghost predicate AllOnce<W>(x: Setting<W>, w: W) {
    forall j: nat | j < |x.steps| :: x.applied(w, j) == 1
  }

  /** No step that has a compensator is in effect. */
  ghost predicate NoneLeft<W>(x: Setting<W>, w: W) {
    forall j: nat | j < |x.steps| && x.steps[j].compensate.Some? :: x.applied(w, j) == 0
  }

  ghost predicate Untouched<W>(x: Setting<W>, w: W) {
    forall j: nat | j < |x.steps| :: x.applied(w, j) == 0
  }

  // ---------------------------------------------------------------- the invariant

  /** Steps before m are in effect once, steps from m on are not. */
  ghost predicate Prefix<W>(x: Setting<W>, w: W, m: nat) {
    forall j: nat | j < |x.steps| :: x.applied(w, j) == if j < m then 1 else 0
  }

  /** Steps from `from` up to m are in effect once; no undoable step from m on is. */
  ghost predicate Tail<W>(x: Setting<W>, w: W, from: nat, m: nat) {
    && (forall j: nat | from <= j < m && j < |x.steps| :: x.applied(w, j) == 1)
    && (forall j: nat | m <= j < |x.steps| && x.steps[j].compensate.Some? :: x.applied(w, j) == 0)
    && (forall j: nat | j < |x.steps| :: x.applied(w, j) <= 1)
  }

  /** A step at or after `from` is known to fail for good. */
  ghost predicate Doomed<W>(x: Setting<W>, w: W, from: nat) {
    exists b: nat :: from <= b < |x.steps| && x.broken(w, b)
  }

  /** Step i may be called next by a worker that a crash would send back to step c: all steps
      before i are in effect, or the saga is doomed and those since c are. */
  ghost predicate Ready<W>(x: Setting<W>, w: W, c: nat, i: nat) {
    || (exists m: nat :: i <= m && Prefix(x, w, m))
    || (x.stick && Doomed(x, w, i) && exists m: nat :: i <= m && Tail(x, w, c, m))
  }

  ghost predicate Resumable(disk: Option<Instance>, upTo: nat) {
    && disk.Some? && disk.value.currentStep <= upTo
    && (disk.value.state == Forwarding || (disk.value.state == Started && disk.value.currentStep == 0))
  }

  /** The worker deals with step i, and steps before `ready` are behind it. */
  ghost predicate ForwardInv<W(!new)>(x: Setting<W>, s: State<W>, i: nat, ready: nat) {
    && i < |x.steps| && s.mem.state == Forwarding && Resumable(s.disk, i)
    && Ready(x, s.world, s.disk.value.currentStep, ready)
  }

  /** While compensating, the undoable steps from k on are already out of effect. */
  ghost predicate UndoInv<W(!new)>(x: Setting<W>, s: State<W>, k: nat) {
    && k <= s.mem.currentStep < |x.steps| && s.mem.state == Forwarding && Resumable(s.disk, s.mem.currentStep)
    && (exists m: nat :: m <= k && Tail(x, s.world, s.disk.value.currentStep, m))
    && (x.stick ==> Doomed(x, s.world, s.mem.currentStep))
  }

  /** What the store says about the world while no worker is alive. A saga that is `started` may have
      any steps in effect, but nothing will resume it. */
  ghost predicate Settled<W(!new)>(x: Setting<W>, disk: Option<Instance>, w: W) {
    if disk.None? then Untouched(x, w)
    else
      match disk.value.state
      case Started => true
      case Forwarding =>
        var c := disk.value.currentStep;
        c < |x.steps| && Ready(x, w, c, c)
      case Completed => AllOnce(x, w)
      case Compensating => NoneLeft(x, w)
      case Failed => true
  }

  ghost predicate Inv<W(!new)>(x: Setting<W>, s: State<W>) {
    var n := |x.steps|;
    match s.pc
    case Idle => Settled(x, s.disk, s.world)
    case Begin => n > 0 && s.disk == Some(Fresh(n)) && s.mem == Fresh(n) && Untouched(x, s.world)
    case Mark(i) => ForwardInv(x, s, i, i)
    case Call(i) => s.mem.currentStep == i && ForwardInv(x, s, i, i)
    case Recall(i) => s.mem.currentStep == i && ForwardInv(x, s, i, i)
    case Record(i) => s.mem.currentStep == i && ForwardInv(x, s, i, i + 1)
    case Undo(k) => UndoInv(x, s, k)
    case UndoSave(k) => UndoInv(x, s, k)
    case Finish(out) =>
      match out
      case Completed => n > 0 && AllOnce(x, s.world) && Resumable(s.disk, n - 1)
      case Compensating => UndoInv(x, s, 0)
      case Failed => exists k: nat :: UndoInv(x, s, k)
      case Started => false
      case Forwarding => false
  }

  lemma CallSucceeds<W(!new)>(x: Setting<W>, w: W, c: nat, i: nat)
    requires Assumed(x) && c <= i < |x.steps| && Ready(x, w, c, i)
    requires Execute(x.steps[i], w).1
    ensures Ready(x, Execute(x.steps[i], w).0, c, i + 1)
  {
    var w1 := Execute(x.steps[i], w).0;
    assert ExecutesOnce(x, i, w) && (x.stick ==> FailureSticks(x, i, w));
    if m: nat :| i <= m && Prefix(x, w, m) {
      assert Prefix(x, w1, if m == i then i + 1 else m);
    } else {
      var m: nat :| i <= m && Tail(x, w, c, m);
      assert Tail(x, w1, c, if m == i then i + 1 else m);
      var b: nat :| i <= b < |x.steps| && x.broken(w, b);
      assert b != i && x.broken(w1, b);
    }
  }

  lemma CallFails<W(!new)>(x: Setting<W>, w: W, c: nat, i: nat)
    requires Assumed(x) && c <= i < |x.steps| && Ready(x, w, c, i)
    requires !Execute(x.steps[i], w).1
    ensures Tail(x, Execute(x.steps[i], w).0, c, i)
    ensures x.stick ==> Doomed(x, Execute(x.steps[i], w).0, i)
  {
    var w1 := Execute(x.steps[i], w).0;
    assert ExecutesOnce(x, i, w) && (x.stick ==> FailureSticks(x, i, w));
    assert x.stick ==> x.broken(w1, i);
    if m: nat :| i <= m && Prefix(x, w, m) {
      assert m == i;
    } else {
      var m: nat :| i <= m && Tail(x, w, c, m);
      assert m == i;
    }
  }

  lemma CompensatorRuns<W(!new)>(x: Setting<W>, w: W, c: nat, k: nat, m: nat)
    requires Assumed(x) && k < |x.steps| && x.steps[k].compensate.Some?
    requires m <= k + 1 && Tail(x, w, c, m)
    ensures var (w1, ok) := Compensate(x.steps[k], w);
            if ok then Tail(x, w1, c, if m == k + 1 then k else m) else Tail(x, w1, c, m)
  {
    assert CompensatesOnce(x, k, w);
  }

  lemma CompensatorKeepsDoom<W(!new)>(x: Setting<W>, w: W, from: nat, k: nat)
    requires FailuresStick(x) && k < |x.steps| && x.steps[k].compensate.Some? && Doomed(x, w, from)
    ensures Doomed(x, Compensate(x.steps[k], w).0, from)
  {
    assert FailureSticks(x, k, w);
  }

  lemma Undoes<W(!new)>(x: Setting<W>, s: State<W>, k: nat, saved: bool)
    requires Assumed(x) && s.pc == Undo(k) && Inv(x, s)
    ensures Inv(x, Move(x.steps, s, saved))
  {
    if k > 0 {
      var c := s.disk.value.currentStep;
      var m: nat :| m <= k && Tail(x, s.world, c, m);
      if x.steps[k - 1].compensate.None? {
        assert Tail(x, s.world, c, if m == k then k - 1 else m);
      } else {
        CompensatorRuns(x, s.world, c, k - 1, m);
        if x.stick { CompensatorKeepsDoom(x, s.world, s.mem.currentStep, k - 1); }
        assert !Compensate(x.steps[k - 1], s.world).1 ==> UndoInv(x, Move(x.steps, s, saved), k);
      }
    }
  }

  /** A crash while compensating leaves a saga that can only be resumed into failing again. */
  lemma UndoReady<W(!new)>(x: Setting<W>, s: State<W>, k: nat)
    requires x.stick && UndoInv(x, s, k)
    ensures Settled(x, s.disk, s.world)
  {
    var c := s.disk.value.currentStep;
    var m: nat :| m <= k && Tail(x, s.world, c, m);
    assert Tail(x, s.world, c, if m < c then c else m);
  }

  lemma CrashSettles<W(!new)>(x: Setting<W>, s: State<W>)
    requires Inv(x, s)
    requires Undoing(s.pc) && s.disk.Some? && s.disk.value.state == Forwarding ==> x.stick
    ensures Settled(x, s.disk, s.world)
  {
    if s.disk.None? || s.disk.value.state != Forwarding { return; }
    match s.pc
    case Undo(k) => UndoReady(x, s, k);
    case UndoSave(k) => UndoReady(x, s, k);
    case Finish(out) =>
      if out == Completed {
        assert Prefix(x, s.world, |x.steps|);
      } else {
        var k: nat :| UndoInv(x, s, k);
        UndoReady(x, s, k);
      }
    case _ =>
  }

  /** A store write of the forward phase moves the restart point, or is lost. */
  lemma Writes<W(!new)>(x: Setting<W>, s: State<W>, saved: bool)
    requires Inv(x, s) && (s.pc.Begin? || s.pc.Mark? || s.pc.Record?)
    ensures Inv(x, Move(x.steps, s, saved))
  {
    var s1 := Move(x.steps, s, saved);
    if s.pc.Begin? {
      assert Prefix(x, s.world, 0);
    } else {
      var i, c := s.pc.i, s.disk.value.currentStep;
      var ready := if s.pc.Mark? then i else i + 1;
      if m: nat :| ready <= m && Prefix(x, s.world, m) {
        assert Prefix(x, s1.world, m);
      } else {
        var m: nat :| ready <= m && Tail(x, s.world, c, m);
        assert Tail(x, s1.world, s1.disk.value.currentStep, m);
        assert Doomed(x, s.world, ready);
      }
    }
  }

  lemma Calls<W(!new)>(x: Setting<W>, s: State<W>, saved: bool)
    requires Assumed(x) && Inv(x, s) && (s.pc.Call? || s.pc.Recall?)
    ensures Inv(x, Move(x.steps, s, saved))
  {
    var i, c := s.pc.i, s.disk.value.currentStep;
    if Execute(x.steps[i], s.world).1 {
      CallSucceeds(x, s.world, c, i);
      if s.pc.Recall? && i + 1 == |x.steps| { ReadyAtEnd(x, Execute(x.steps[i], s.world).0, c); }
    } else {
      CallFails(x, s.world, c, i);
    }
  }

  lemma ReadyAtEnd<W(!new)>(x: Setting<W>, w: W, c: nat)
    requires Ready(x, w, c, |x.steps|)
    ensures AllOnce(x, w)
  {
  }

  /** Every allowed event keeps the invariant. */
  lemma InvStep<W(!new)>(x: Setting<W>, s: State<W>, e: Event)
    requires Assumed(x) && Inv(x, s) && Allowed(s, e, x.stick)
    ensures Inv(x, Apply(x.steps, s, e))
  {
    match e
    case Start(_) =>
    case Crash => CrashSettles(x, s);
    case Resume =>
    case Go(saved) =>
      match s.pc
      case Idle =>
      case Begin | Mark(_) | Record(_) => Writes(x, s, saved);
      case Call(_) | Recall(_) => Calls(x, s, saved);
      case Undo(k) => Undoes(x, s, k, saved);
      case UndoSave(k) => UndoWrites(x, s, saved);
      case Finish(_) => Finishes(x, s, saved);
  }

  lemma UndoWrites<W(!new)>(x: Setting<W>, s: State<W>, saved: bool)
    requires Inv(x, s) && s.pc.UndoSave?
    ensures Inv(x, Move(x.steps, s, saved))
  {
    var s1 := Move(x.steps, s, saved);
    var m: nat :| m <= s.pc.k && Tail(x, s.world, s.disk.value.currentStep, m);
    assert Tail(x, s1.world, s1.disk.value.currentStep, m);
  }

  lemma Finishes<W(!new)>(x: Setting<W>, s: State<W>, saved: bool)
    requires Inv(x, s) && s.pc.Finish? && Allowed(s, Go(saved), x.stick)
    ensures Inv(x, Move(x.steps, s, saved))
  {
    if !saved { CrashSettles(x, s); }
  }

  /** What the stored instance, or its absence, tells of the world while no worker is alive. */
  ghost predicate Tells<W>(x: Setting<W>, s: State<W>) {
    s.pc == Idle ==>
      match s.disk
      case None => Untouched(x, s.world)
      case Some(inst) =>
        match inst.state
        case Completed => AllOnce(x, s.world)
        case Compensating => NoneLeft(x, s.world)
        case _ => true
  }

  /** Crash safety. However often the process dies and is resumed, whenever no worker is alive:
      a `completed` saga has every step in effect exactly once, a `compensating` one has no
      undoable step in effect, and one that is absent has none at all. What is said of `compensating`
      needs neither the restriction nor failures that stick; SagaCompensated proves it without. */
  lemma {:induction false} CrashSafety<W(!new)>(x: Setting<W>, w: W, events: seq<Event>)
    requires Assumed(x) && Untouched(x, w)
    requires AllAllowed(x, Initial(|x.steps|, w), events)
    ensures var s := Run(x.steps, Initial(|x.steps|, w), events); Inv(x, s) && Tells(x, s)
  {
    if events != [] {
      var before := events[..|events| - 1];
      assert forall k | 0 <= k < |before| :: before[..k] == events[..k];
      CrashSafety(x, w, before);
      InvStep(x, Run(x.steps, Initial(|x.steps|, w), before), events[|events| - 1]);
    }
  }

  // ---------------------------------------------------------------- sagas still stored as `started`

  ghost predicate NotBegun<W>(x: Setting<W>, s: State<W>) {
    && (match s.pc
        case Idle => true
        case Begin => s.disk == Some(Fresh(|x.steps|))
        case Finish(out) => out != Started
        case _ => s.mem.state == Forwarding)
    && (s.disk.None? ==> s.pc == Idle && Untouched(x, s.world))
    && (s.disk.Some? && s.disk.value.state == Started ==>
          Untouched(x, s.world) && (s.pc == Idle || s.pc == Begin || s.pc == Mark(0)))
  }

  lemma {:induction false} NotBegunStep<W>(x: Setting<W>, s: State<W>, e: Event)
    requires NotBegun(x, s) && StartsOnce(s, e) && IsStored(s, e)
    ensures NotBegun(x, Apply(x.steps, s, e))
  {
  }

  /** If one of the two writes of the `forwarding` state before the first call arrives, a saga stored
      as `started` has no step in effect. Nothing is assumed of the steps, of crashes or of other
      writes. SagaStranding says what happens if both are lost. */
  lemma {:induction false} StartedIsUntouched<W>(x: Setting<W>, w: W, events: seq<Event>)
    requires Untouched(x, w)
    requires AllStartOnce(x, Initial(|x.steps|, w), events) && AllStored(x, Initial(|x.steps|, w), events)
    ensures var s := Run(x.steps, Initial(|x.steps|, w), events);
            NotBegun(x, s) && (s.disk.Some? && s.disk.value.state == Started ==> Untouched(x, s.world))
  {
    if events != [] {
      var before := events[..|events| - 1];
      assert forall k | 0 <= k < |before| :: before[..k] == events[..k];
      StartedIsUntouched(x, w, before);
      NotBegunStep(x, Run(x.steps, Initial(|x.steps|, w), before), events[|events| - 1]);
    }
  }

  // ---------------------------------------------------------------- many sagas in one world

  /** What happens around one saga: its own events, and other sagas that change the world. */
  datatype Item<!W> = Own(event: Event) | Elsewhere(world: W)

  /** The other sagas leave the steps of this one alone. */
  ghost predicate SameFor<W>(x: Setting<W>, w: W, w1: W) {
    forall j: nat :: x.applied(w1, j) == x.applied(w, j) && x.broken(w1, j) == x.broken(w, j)
  }

  function RunAmong<W>(steps: seq<Step<W>>, s: State<W>, items: seq<Item<W>>): State<W> {
    if items == [] then s
    else
      var before := RunAmong(steps, s, items[..|items| - 1]);
      match items[|items| - 1]
      case Own(e) => Apply(steps, before, e)
      case Elsewhere(w) => before.(world := w)
  }

  /** Which events and changes by others the theorems admit: all that let a saga id start once, and
      with `allowed` or `stored` those of the theorems above. */
  ghost predicate AllowedAmong<W>(x: Setting<W>, s: State<W>, items: seq<Item<W>>, allowed: bool, stored: bool) {
    items == [] ||
    var before := RunAmong(x.steps, s, items[..|items| - 1]);
    && AllowedAmong(x, s, items[..|items| - 1], allowed, stored)
    && match items[|items| - 1]
       case Own(e) => StartsOnce(before, e) && (allowed ==> Allowed(before, e, x.stick))
         && (stored ==> IsStored(before, e))
       case Elsewhere(w) => SameFor(x, before.world, w)
  }

  lemma {:induction false} ReadyElsewhere<W>(x: Setting<W>, w: W, w1: W, c: nat, i: nat)
    requires SameFor(x, w, w1) && Ready(x, w, c, i)
    ensures Ready(x, w1, c, i)
  {
    if m: nat :| i <= m && Prefix(x, w, m) {
      assert Prefix(x, w1, m);
    } else {
      var m: nat :| i <= m && Tail(x, w, c, m);
      assert Tail(x, w1, c, m);
      var b: nat :| i <= b < |x.steps| && x.broken(w, b);
      assert x.broken(w1, b);
    }
  }

  lemma {:induction false} UndoElsewhere<W(!new)>(x: Setting<W>, s: State<W>, w1: W, k: nat)
    requires SameFor(x, s.world, w1) && UndoInv(x, s, k)
    ensures UndoInv(x, s.(world := w1), k)
  {
    var c := s.disk.value.currentStep;
    var m: nat :| m <= k && Tail(x, s.world, c, m);
    assert Tail(x, w1, c, m);
    if x.stick {
      var b: nat :| s.mem.currentStep <= b < |x.steps| && x.broken(s.world, b);
      assert x.broken(w1, b);
    }
  }

  lemma {:induction false} OthersKeep<W(!new)>(x: Setting<W>, s: State<W>, w1: W)
    requires Inv(x, s) && SameFor(x, s.world, w1)
    ensures Inv(x, s.(world := w1))
  {
    var s1 := s.(world := w1);
    match s.pc
    case Idle =>
      if s.disk.Some? && s.disk.value.state == Forwarding {
        ReadyElsewhere(x, s.world, w1, s.disk.value.currentStep, s.disk.value.currentStep);
      }
    case Mark(i) => if ForwardInv(x, s, i, i) { ReadyElsewhere(x, s.world, w1, s.disk.value.currentStep, i); }
    case Call(i) => ReadyElsewhere(x, s.world, w1, s.disk.value.currentStep, i);
    case Recall(i) => ReadyElsewhere(x, s.world, w1, s.disk.value.currentStep, i);
    case Record(i) => ReadyElsewhere(x, s.world, w1, s.disk.value.currentStep, i + 1);
    case Undo(k) => UndoElsewhere(x, s, w1, k);
    case UndoSave(k) => UndoElsewhere(x, s, w1, k);
    case Finish(out) =>
      if out == Compensating {
        UndoElsewhere(x, s, w1, 0);
      } else if out == Failed {
        var k: nat :| UndoInv(x, s, k);
        UndoElsewhere(x, s, w1, k);
      }
    case _ =>
  }

  /** Crash safety of every saga that shares its world with others. */
  lemma {:induction false} CrashSafetyAmongOthers<W(!new)>(x: Setting<W>, w: W, items: seq<Item<W>>)
    requires Assumed(x) && Untouched(x, w)
    requires AllowedAmong(x, Initial(|x.steps|, w), items, true, false)
    ensures var s := RunAmong(x.steps, Initial(|x.steps|, w), items); Inv(x, s) && Tells(x, s)
  {
    if items != [] {
      var before := items[..|items| - 1];
      CrashSafetyAmongOthers(x, w, before);
      var s := RunAmong(x.steps, Initial(|x.steps|, w), before);
      match items[|items| - 1]
      case Own(e) => InvStep(x, s, e);
      case Elsewhere(w1) => OthersKeep(x, s, w1);
    }
  }

  lemma {:induction false} StartedIsUntouchedAmongOthers<W>(x: Setting<W>, w: W, items: seq<Item<W>>)
    requires Untouched(x, w) && AllowedAmong(x, Initial(|x.steps|, w), items, false, true)
    ensures var s := RunAmong(x.steps, Initial(|x.steps|, w), items);
            NotBegun(x, s) && (s.disk.Some? && s.disk.value.state == Started ==> Untouched(x, s.world))
  {
    if items != [] {
      var before := items[..|items| - 1];
      StartedIsUntouchedAmongOthers(x, w, before);
      if items[|items| - 1].Own? {
        NotBegunStep(x, RunAmong(x.steps, Initial(|x.steps|, w), before), items[|items| - 1].event);
      }
    }
  }

  // ---------------------------------------------------------------- when a resumed saga is right

  /** Steps before c as they were in `w`, steps from c up to `upTo` in effect once. */
  ghost predicate Caught<W>(x: Setting<W>, w: W, c: nat, now: W, upTo: nat) {
    forall j: nat | j < |x.steps| ::
      && (j < c ==> x.applied(now, j) == x.applied(w, j))
      && (c <= j < upTo ==> x.applied(now, j) == 1)
      && (c <= j ==> x.applied(now, j) <= 1)
  }

  ghost predicate Resuming<W>(x: Setting<W>, w: W, c: nat, s: State<W>) {
    match s.pc
    case Recall(i) => c <= i < |x.steps| && Caught(x, w, c, s.world, i)
      && s.disk.Some? && s.disk.value.state == Forwarding && s.mem.state == Forwarding
    case Undo(_) | UndoSave(_) => s.disk.Some? && s.disk.value.state == Forwarding && s.mem.state == Forwarding
    case Finish(out) => s.disk.Some? && s.disk.value.state == Forwarding
      && (out == Completed ==> Caught(x, w, c, s.world, |x.steps|))
    case Idle => s.disk.Some? && (s.disk.value.state == Completed ==> Caught(x, w, c, s.world, |x.steps|))
    case _ => false
  }

  lemma ResumingStep<W(!new)>(x: Setting<W>, w: W, c: nat, s: State<W>, saved: bool)
    requires Idempotent(x) && Resuming(x, w, c, s)
    ensures Resuming(x, w, c, Move(x.steps, s, saved))
  {
    if s.pc.Recall? { assert ExecutesOnce(x, s.pc.i, s.world); }
  }

  /** Exactly when a resumed saga that reports `completed` has every step in effect exactly once:
      when, at the moment of resuming, every step below the stored `CurrentStep` was. */
  lemma {:induction false} ResumeIsExact<W(!new)>(x: Setting<W>, s: State<W>, saves: seq<bool>)
    requires Idempotent(x) && s.pc == Idle && s.disk.Some? && s.disk.value.state == Forwarding
    requires s.disk.value.currentStep < |x.steps|
    requires forall j: nat | j < |x.steps| :: x.applied(s.world, j) <= 1
    ensures var c, s1 := s.disk.value.currentStep, Run(x.steps, s, [Resume] + Gos(saves));
            && Resuming(x, s.world, c, s1)
            && (s1.pc == Idle && s1.disk.value.state == Completed ==>
                  (AllOnce(x, s1.world) <==> forall j: nat | j < c :: x.applied(s.world, j) == 1))
  {
    var c := s.disk.value.currentStep;
    if saves == [] {
      assert Run(x.steps, s, [Resume]) == Apply(x.steps, Run(x.steps, s, []), Resume);
      assert [Resume] + Gos(saves) == [Resume];
    } else {
      var before := saves[..|saves| - 1];
      ResumeIsExact(x, s, before);
      assert [Resume] + Gos(saves) == [Resume] + Gos(before) + [Go(saves[|saves| - 1])];
      RunSnoc(x.steps, s, [Resume] + Gos(before), Go(saves[|saves| - 1]));
      ResumingStep(x, s.world, c, Run(x.steps, s, [Resume] + Gos(before)), saves[|saves| - 1]);
    }
  }

  function Gos(saves: seq<bool>): seq<Event> {
    seq(|saves|, i requires 0 <= i < |saves| => Go(saves[i]))
  }

  // ---------------------------------------------------------------- why the conditions are there

  /** A debit that can be undone, then a credit that fails on its first call only. */
  datatype Shop = Shop(debit: nat, credit: nat, creditCalls: nat)

  function ShopSetting(): Setting<Shop> {
    Setting(
      [Step("debit", Some((w: Shop) => (w.(debit := if w.debit == 0 then 1 else w.debit), true)),
            Some((w: Shop) => (w.(debit := 0), true))),
       Step("credit", Some((w: Shop) =>
              if w.creditCalls == 0 && w.credit == 0 then (w.(creditCalls := 1), false)
              else (w.(credit := if w.credit == 0 then 1 else w.credit), true)),
            Some((w: Shop) => (w.(credit := 0), true)))],
      (w: Shop, i: nat) => if i == 0 then w.debit else w.credit,
      (w: Shop, i: nat) => false, false)
  }

  lemma ShopIsIdempotent()
    ensures Idempotent(ShopSetting()) && Untouched(ShopSetting(), Shop(0, 0, 0))
  {
  }

  /** The same debit, then a step that always fails. */
  function BarredSetting(): Setting<Shop> {
    Setting(
      [ShopSetting().steps[0], Step("barred", Some((w: Shop) => (w.(creditCalls := w.creditCalls + 1), false)), None)],
      (w: Shop, i: nat) => if i == 0 then w.debit else 0,
      (w: Shop, i: nat) => i == 1 && w.creditCalls > 0, true)
  }

  /** Sagas with a step that fails can meet the stronger assumption, under which a crash is allowed at
      every point. */
  lemma FailuresCanStick()
    ensures Assumed(BarredSetting()) && BarredSetting().stick && Untouched(BarredSetting(), Shop(0, 0, 0))
    ensures FailsFirst(BarredSetting().steps, Shop(0, 0, 0), 1)
  {
    var x := BarredSetting();
    var w := Shop(0, 0, 0);
    assert World(x.steps, w, 1) == Shop(1, 0, 0);
  }

  lemma {:induction false} Trace<W>(steps: seq<Step<W>>, states: seq<State<W>>, events: seq<Event>)
    requires |states| == |events| + 1
    requires forall k | 0 <= k < |events| :: states[k + 1] == Apply(steps, states[k], events[k])
    ensures Run(steps, states[0], events) == states[|events|]
  {
    if events != [] {
      Trace(steps, states[..|events|], events[..|events| - 1]);
    }
  }

  /** The shop saga from its start to the failed credit. */
  const CREDIT_FAILS: seq<Event> := [Start(true), Go(true), Go(true), Go(true), Go(true), Go(true), Go(true)]

  lemma CreditFails() returns (s: State<Shop>)
    ensures s == Run(ShopSetting().steps, Initial(2, Shop(0, 0, 0)), CREDIT_FAILS)
    ensures s.pc == Undo(1) && s.world == Shop(1, 0, 1) && s.mem.state == Forwarding && s.mem.currentStep == 1
    ensures s.disk.Some? && s.disk.value.state == Forwarding && s.disk.value.currentStep == 1
  {
    var steps, s0 := ShopSetting().steps, Initial(2, Shop(0, 0, 0));
    var s1 := Apply(steps, s0, Start(true));
    var s2 := Apply(steps, s1, Go(true));
    var s3 := Apply(steps, s2, Go(true));
    var s4 := Apply(steps, s3, Go(true));
    var s5 := Apply(steps, s4, Go(true));
    var s6 := Apply(steps, s5, Go(true));
    s := Apply(steps, s6, Go(true));
    Trace(steps, [s0, s1, s2, s3, s4, s5, s6, s], CREDIT_FAILS);
  }

  lemma {:induction false} RunAppend<W>(steps: seq<Step<W>>, s: State<W>, first: seq<Event>, second: seq<Event>)
    ensures Run(steps, s, first + second) == Run(steps, Run(steps, s, first), second)
  {
    if second == [] {
      assert first + second == first;
    } else {
      var n := |second| - 1;
      RunAppend(steps, s, first, second[..n]);
      assert first + second == first + second[..n] + [second[n]];
      RunSnoc(steps, s, first + second[..n], second[n]);
    }
  }

  /** Once the debit has been undone, resuming the stored instance completes the saga without it. */
  lemma ResumedShopForgetsDebit(s: State<Shop>)
    requires s.pc == Idle && s.world == Shop(0, 0, 1)
    requires s.disk.Some? && s.disk.value.state == Forwarding && s.disk.value.currentStep == 1
    ensures var x := ShopSetting();
            var s1 := Run(x.steps, s, [Resume, Go(true), Go(true)]);
            s1.pc == Idle && s1.disk.Some? && s1.disk.value.state == Completed
            && s1.world.debit == 0 && !AllOnce(x, s1.world)
  {
    var x := ShopSetting();
    var s1 := Apply(x.steps, s, Resume);
    var s2 := Apply(x.steps, s1, Go(true));
    var s3 := Apply(x.steps, s2, Go(true));
    Trace(x.steps, [s, s1, s2, s3], [Resume, Go(true), Go(true)]);
    assert x.applied(s3.world, 0) == 0;
  }

  /** The process dies after the debit was compensated. The stored instance still says
      `forwarding`, the credit called again succeeds, and the saga is `completed` without its debit. */
  lemma CrashWhileCompensatingBreaks()
    ensures Idempotent(ShopSetting()) && Untouched(ShopSetting(), Shop(0, 0, 0))
    ensures var x := ShopSetting();
            var s := Run(x.steps, Initial(2, Shop(0, 0, 0)),
                     CREDIT_FAILS + [Go(true), Crash] + [Resume, Go(true), Go(true)]);
            s.pc == Idle && s.disk.Some? && s.disk.value.state == Completed
            && s.world.debit == 0 && !AllOnce(x, s.world)
  {
    ShopIsIdempotent();
    var steps, start := ShopSetting().steps, Initial(2, Shop(0, 0, 0));
    var s0 := CreditFails();
    var s1 := Apply(steps, s0, Go(true));
    var s2 := Apply(steps, s1, Crash);
    Trace(steps, [s0, s1, s2], [Go(true), Crash]);
    RunAppend(steps, start, CREDIT_FAILS, [Go(true), Crash]);
    RunAppend(steps, start, CREDIT_FAILS + [Go(true), Crash], [Resume, Go(true), Go(true)]);
    ResumedShopForgetsDebit(s2);
  }

  /** The same without any crash: only the write of the final `compensating` state is lost. */
  lemma LostLastWriteBreaks()
    ensures Idempotent(ShopSetting()) && Untouched(ShopSetting(), Shop(0, 0, 0))
    ensures var x := ShopSetting();
            var s := Run(x.steps, Initial(2, Shop(0, 0, 0)),
                     CREDIT_FAILS + [Go(true), Go(true), Go(true), Go(false)] + [Resume, Go(true), Go(true)]);
            s.pc == Idle && s.disk.Some? && s.disk.value.state == Completed
            && s.world.debit == 0 && !AllOnce(x, s.world)
  {
    ShopIsIdempotent();
    var steps, start, tail := ShopSetting().steps, Initial(2, Shop(0, 0, 0)), [Go(true), Go(true), Go(true), Go(false)];
    var s0 := CreditFails();
    DebitUndone(s0);
    RunAppend(steps, start, CREDIT_FAILS, tail);
    RunAppend(steps, start, CREDIT_FAILS + tail, [Resume, Go(true), Go(true)]);
    ResumedShopForgetsDebit(Run(steps, s0, tail));
  }

  lemma DebitUndone(s: State<Shop>)
    requires s.pc == Undo(1) && s.world == Shop(1, 0, 1) && s.mem.state == Forwarding && s.mem.currentStep == 1
    requires s.disk.Some? && s.disk.value.state == Forwarding && s.disk.value.currentStep == 1
    ensures var s1 := Run(ShopSetting().steps, s, [Go(true), Go(true), Go(true), Go(false)]);
            && s1.pc == Idle && s1.world == Shop(0, 0, 1)
            && s1.disk.Some? && s1.disk.value.state == Forwarding && s1.disk.value.currentStep == 1
  {
    var steps := ShopSetting().steps;
    var s1 := Apply(steps, s, Go(true));
    var s2 := Apply(steps, s1, Go(true));
    var s3 := Apply(steps, s2, Go(true));
    var s4 := Apply(steps, s3, Go(false));
    Trace(steps, [s, s1, s2, s3, s4], [Go(true), Go(true), Go(true), Go(false)]);
  }

  /** Neither write of the `forwarding` state arrives, the debit is made, the process dies: the
      stored `started` instance is never resumed and the debit stays. SagaStranding says exactly when
      this happens. */
  lemma LostForwardingWritesStrand()
    ensures var x := ShopSetting();
            var s := Run(x.steps, Initial(2, Shop(0, 0, 0)), [Start(true), Go(false), Go(false), Go(true), Crash]);
            && s.pc == Idle && s.world.debit == 1 && !Untouched(x, s.world)
            && s.disk == Some(Fresh(2)) && Apply(x.steps, s, Resume) == s
  {
    var x, s0 := ShopSetting(), Initial(2, Shop(0, 0, 0));
    var s1 := Apply(x.steps, s0, Start(true));
    var s2 := Apply(x.steps, s1, Go(false));
    var s3 := Apply(x.steps, s2, Go(false));
    var s4 := Apply(x.steps, s3, Go(true));
    var s5 := Apply(x.steps, s4, Crash);
    Trace(x.steps, [s0, s1, s2, s3, s4, s5], [Start(true), Go(false), Go(false), Go(true), Crash]);
    assert x.applied(s5.world, 0) == 1;
  }
}
