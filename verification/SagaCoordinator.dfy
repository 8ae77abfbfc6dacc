/** `SagaCoordinator` of packages/payment-util/outbox/saga.go, statement by statement: each method
    is a run of the machine, so the crash points studied in SagaMachine and the traces described
    in SagaRun are those of this code. */
module SagaCoordinator {
  import opened Prelude
  import opened Saga
  import opened SagaMachine
  import opened SagaRecovery
  import opened SagaReports
  import opened SagaRun

  datatype StartError = NoError | EmptyDefinition | IdRequired | SaveStartFailed
  datatype AdvanceError = Panicked | Advanced | NotFound | IndexMismatch | StepReportedFailure | CompensationFailed
    | SaveFailed

  /** Of the steps before k those from `stop` on that have a compensator are now compensated. */
  ghost predicate Marked<W>(steps: seq<Step<W>>, before: seq<StepStatus>, now: seq<StepStatus>, k: nat, stop: nat) {
    |now| == |before| == |steps| && forall j: nat | j < |steps| ::
      now[j] == if stop <= j < k && steps[j].compensate.Some? then Compensated else before[j]
  }

  /** The machine is compensating steps k-1..0 from world `w` and these results, and this is how far it
      got. */
  ghost predicate Unrolls<W>(steps: seq<Step<W>>, k: nat, w: W, calls: seq<Call>, results: seq<StepStatus>,
                             s: State<W>) {
    k <= |steps| &&
    var u := Rollback(steps, k, w);
    match s.pc
    case Undo(i) => Unrolled(steps, k, calls, results, s, i) && Rollback(steps, i, s.world) == u
    case UndoSave(i) => Unrolled(steps, k, calls, results, s, i) && Rollback(steps, i, s.world) == u
    case Finish(out) =>
      (out == Compensating || out == Failed) && u.clean == (out == Compensating)
      && s.world == u.world && u.stop <= k && Unrolled(steps, k, calls, results, s, u.stop)
    case Idle => true
    case _ => false
  }

  ghost predicate Unrolled<W>(steps: seq<Step<W>>, k: nat, calls: seq<Call>, results: seq<StepStatus>, s: State<W>,
                              stop: nat)
    requires k <= |steps|
  {
    stop <= k && s.calls == calls + Owed(steps, k, stop) && Marked(steps, results, s.mem.results, k, stop)
  }

  lemma UnrollsIsClosed<W(!new)>(steps: seq<Step<W>>, k: nat, w: W, calls: seq<Call>, results: seq<StepStatus>)
    requires k <= |steps|
    ensures Closed(steps, iset s | Unrolls(steps, k, w, calls, results, s))
  {
    forall s, saved | Unrolls(steps, k, w, calls, results, s)
      ensures Unrolls(steps, k, w, calls, results, Move(steps, s, saved))
    {
      UnrollsOn(steps, k, w, calls, results, s, saved);
    }
  }

  lemma {:induction false} OneMoreUnrolled<W>(steps: seq<Step<W>>, k: nat, calls: seq<Call>, results: seq<StepStatus>,
                                             s: State<W>, saved: bool)
    requires k <= |steps| && s.pc.Undo? && s.pc.k > 0 && Unrolled(steps, k, calls, results, s, s.pc.k)
    ensures Unrolled(steps, k, calls, results, Move(steps, s, saved), s.pc.k - 1)
  {
    var i := s.pc.k - 1;
    OwedExtends(steps, k, i);
    assert calls + Owed(steps, k, i)
      == calls + Owed(steps, k, i + 1) + if steps[i].compensate.Some? then [Comp(i)] else [];
  }

  lemma {:induction false} UnrollsOn<W>(steps: seq<Step<W>>, k: nat, w: W, calls: seq<Call>, results: seq<StepStatus>,
                                       s: State<W>, saved: bool)
    requires Unrolls(steps, k, w, calls, results, s)
    ensures Unrolls(steps, k, w, calls, results, Move(steps, s, saved))
  {
    if s.pc.Undo? && s.pc.k > 0 { OneMoreUnrolled(steps, k, calls, results, s, saved); }
  }

  /** The saga as SagaReports sees it, and the compensators among some calls. */
  ghost function PlanOf<W>(steps: seq<Step<W>>): Plan {
    Plan(|steps|, set j | 0 <= j < |steps| && steps[j].compensate.Some?)
  }

  ghost function CompsIn(calls: seq<Call>): set<nat> {
    set c | c in calls && c.Comp? :: c.step
  }

  lemma {:induction false} OwedAreCalled<W>(steps: seq<Step<W>>, k: nat, stop: nat)
    requires k <= |steps|
    ensures forall c | c in Owed(steps, k, stop) :: c.Comp? && stop <= c.step < k && steps[c.step].compensate.Some?
    ensures forall j: nat | stop <= j < k && steps[j].compensate.Some? :: Comp(j) in Owed(steps, k, stop)
  {
    if k > stop { OwedAreCalled(steps, k - 1, stop); }
  }

  /** The compensators of a failure report are those its description names. */
  lemma {:induction false} ReportNamesCalls<W>(steps: seq<Step<W>>, r: Report)
    requires 0 <= r.idx <= |steps|
    ensures CompsIn(Owed(steps, r.idx, r.stop)) == Called(PlanOf(steps), r)
  {
    var owed := Owed(steps, r.idx, r.stop);
    OwedAreCalled(steps, r.idx, r.stop);
    forall j | j in Called(PlanOf(steps), r) ensures j in CompsIn(owed) { assert Comp(j) in owed; }
  }

  lemma OnlyChanged<V>(m: map<string, V>, m1: map<string, V>, id: string)
    requires m - {id} == m1 - {id} && id in m && id in m1
    ensures m.Keys == m1.Keys && forall k | k in m && k != id :: m[k] == m1[k]
  {
    assert forall k :: k in m && k != id <==> k in m - {id};
    assert forall k :: k in m1 && k != id <==> k in m1 - {id};
    assert forall k | k in m && k != id :: m[k] == (m - {id})[k] == (m1 - {id})[k] == m1[k];
  }

  ghost function Unfinished(store: map<string, Instance>): set<string> {
    set id | id in store && store[id].state != Completed && store[id].state != Failed
  }

  ghost function ForwardingIn(store: map<string, Instance>): set<string> {
    set id | id in store && store[id].state == Forwarding
  }

  /** Each of these sagas once, as it is stored. */
  ghost predicate Lists(store: map<string, Instance>, pending: seq<(string, Instance)>, ids: set<string>) {
    && |pending| == |ids|
    && (forall j | 0 <= j < |pending| ::
         pending[j].0 in ids && pending[j].0 in store && pending[j].1 == store[pending[j].0])
    && (forall j, k | 0 <= j < k < |pending| :: pending[j].0 != pending[k].0)
  }

  lemma ListsMore(store: map<string, Instance>, pending: seq<(string, Instance)>, ids: set<string>, id: string)
    requires Lists(store, pending, ids) && id in store && id !in ids
    ensures Lists(store, pending + [(id, store[id])], ids + {id})
  {
  }

  /** The scan of the store has ended: it saw everything or has enough. */
  lemma ScanEnds(ids: set<string>, rest: set<string>, all: set<string>, limit: nat)
    requires ids <= all <= ids + rest && |ids| <= (if limit == 0 then 1 else limit)
    requires rest == {} || (ids != {} && |ids| >= limit)
    ensures |ids| == Min(|all|, if limit == 0 then 1 else limit) && (|all| <= limit ==> ids == all)
  {
    SubsetSize(ids, all);
    if rest == {} {
      assert ids == all;
    } else if |all| <= |ids| {
      AllOfThem(ids, all);
    }
    assert ids != {} ==> |ids| >= 1;
  }

  lemma {:induction false} ListsAll(store: map<string, Instance>, pending: seq<(string, Instance)>, ids: set<string>,
                                    id: string)
    requires Lists(store, pending, ids) && id in ids
    ensures exists j :: 0 <= j < |pending| && pending[j].0 == id
    decreases |pending|
  {
    var n := |pending| - 1;
    assert n >= 0;
    if pending[n].0 != id {
      ListsAll(store, pending[..n], ids - {pending[n].0}, id);
    }
  }

  /** The listed sagas that will be resumed, among the first i. */
  ghost function ToResume(pending: seq<(string, Instance)>, i: nat): set<string>
    requires i <= |pending|
  {
    if i == 0 then {}
    else ToResume(pending, i - 1) + if pending[i - 1].1.state == Forwarding then {pending[i - 1].0} else {}
  }

  lemma {:induction false} ToResumeHolds(pending: seq<(string, Instance)>, i: nat)
    requires i <= |pending|
    ensures forall id :: id in ToResume(pending, i)
              <==> exists j :: 0 <= j < i && pending[j].1.state == Forwarding && pending[j].0 == id
  {
    if i > 0 { ToResumeHolds(pending, i - 1); }
  }

  function ForwardingCount(pending: seq<(string, Instance)>, i: nat): nat
    requires i <= |pending|
  {
    if i == 0 then 0 else ForwardingCount(pending, i - 1) + if pending[i - 1].1.state == Forwarding then 1 else 0
  }

  lemma {:induction false} CountIsSize(pending: seq<(string, Instance)>, i: nat)
    requires i <= |pending| && forall j, k | 0 <= j < k < |pending| :: pending[j].0 != pending[k].0
    ensures |ToResume(pending, i)| == ForwardingCount(pending, i)
  {
    if i > 0 {
      CountIsSize(pending, i - 1);
      ToResumeHolds(pending, i - 1);
    }
  }

  lemma AllToResume(store: map<string, Instance>, pending: seq<(string, Instance)>)
    requires Lists(store, pending, Unfinished(store))
    ensures ForwardingCount(pending, |pending|) == |ForwardingIn(store)|
  {
    CountIsSize(pending, |pending|);
    ToResumeHolds(pending, |pending|);
    forall id | id in ForwardingIn(store) ensures id in ToResume(pending, |pending|) {
      ListsAll(store, pending, Unfinished(store), id);
    }
    assert ToResume(pending, |pending|) == ForwardingIn(store);
  }

  /** Where the coordinator stands between two sagas. */
  datatype Point<W> = Point(world: W, calls: seq<Call>, writes: nat)

  /** What resuming one saga left: the instance in memory, the one in the store, and the coordinator. */
  datatype Round<W> = Round(mem: Instance, stored: Instance, end: Point<W>)

  /** Resumed as `inst`, the saga has ended as `mem`. */
  ghost predicate Recovered<W>(steps: seq<Step<W>>, inst: Instance, start: Point<W>, mem: Instance, end: Point<W>) {
    Recovers(steps, start.world, start.calls, inst, State(Idle, mem, None, end.world, end.calls), mem.state)
  }

  /** A saga that is not `forwarding` is skipped. Any other has recovered, and its last instance is
      stored if the last write arrived; if not, it still is stored as `forwarding`. */
  ghost predicate RoundOf<W>(steps: seq<Step<W>>, saveWorks: nat -> bool, inst: Instance, start: Point<W>,
                             r: Round<W>) {
    if inst.state != Forwarding then r == Round(inst, inst, start)
    else
      && Recovered(steps, inst, start, r.mem, r.end)
      && r.end.writes > start.writes
      && if saveWorks(r.end.writes - 1) then r.stored == r.mem else r.stored.state == Forwarding
  }

  function PointAfter<W>(start: Point<W>, rounds: seq<Round<W>>, j: nat): Point<W>
    requires j <= |rounds|
  {
    if j == 0 then start else rounds[j - 1].end
  }

  ghost predicate RoundAt<W>(steps: seq<Step<W>>, saveWorks: nat -> bool, pending: seq<(string, Instance)>,
                             start: Point<W>, rounds: seq<Round<W>>, j: nat)
    requires j < |rounds| <= |pending|
  {
    RoundOf(steps, saveWorks, pending[j].1, PointAfter(start, rounds, j), rounds[j])
  }

  /** The listed sagas were resumed one after the other. */
  ghost predicate Rounds<W>(steps: seq<Step<W>>, saveWorks: nat -> bool, pending: seq<(string, Instance)>,
                            start: Point<W>, rounds: seq<Round<W>>)
  {
    |rounds| <= |pending| &&
    forall j {:trigger RoundAt(steps, saveWorks, pending, start, rounds, j)} | 0 <= j < |rounds| ::
      RoundAt(steps, saveWorks, pending, start, rounds, j)
  }

  lemma {:induction false} RoundsExtend<W>(steps: seq<Step<W>>, saveWorks: nat -> bool,
                                           pending: seq<(string, Instance)>, start: Point<W>, rounds: seq<Round<W>>,
                                           r: Round<W>)
    requires Rounds(steps, saveWorks, pending, start, rounds) && |rounds| < |pending|
    requires RoundOf(steps, saveWorks, pending[|rounds|].1, PointAfter(start, rounds, |rounds|), r)
    ensures Rounds(steps, saveWorks, pending, start, rounds + [r])
  {
    var more := rounds + [r];
    forall j: nat | j < |more| ensures RoundAt(steps, saveWorks, pending, start, more, j) {
      assert PointAfter(start, more, j) == PointAfter(start, rounds, j);
      if j < |rounds| { assert RoundAt(steps, saveWorks, pending, start, rounds, j); }
    }
  }

  /** The first listed sagas are stored as their rounds left them, everything else as it was. */
  ghost predicate Dealt<W>(all: map<string, Instance>, now: map<string, Instance>, pending: seq<(string, Instance)>,
                           rounds: seq<Round<W>>)
  {
    && now.Keys == all.Keys && |rounds| <= |pending|
    && (forall j | 0 <= j < |rounds| :: pending[j].0 in now && now[pending[j].0] == rounds[j].stored)
    && (forall id | id in all && (forall j | 0 <= j < |rounds| :: pending[j].0 != id) :: now[id] == all[id])
  }

  lemma DealtNext<W>(all: map<string, Instance>, before: map<string, Instance>, after: map<string, Instance>,
                     pending: seq<(string, Instance)>, ids: set<string>, rounds: seq<Round<W>>, r: Round<W>)
    requires Lists(all, pending, ids) && |rounds| < |pending| && Dealt(all, before, pending, rounds)
    requires var id := pending[|rounds|].0; after - {id} == before - {id} && id in after && after[id] == r.stored
    ensures Dealt(all, after, pending, rounds + [r])
  {
    var id, more := pending[|rounds|].0, rounds + [r];
    OnlyChanged(before, after, id);
    forall other | other in all && (forall j | 0 <= j < |more| :: pending[j].0 != other)
      ensures after[other] == all[other]
    {
      assert pending[|rounds|].0 != other;
      assert forall j | 0 <= j < |rounds| :: pending[j].0 != other;
    }
  }

  /** What that means for each stored saga: only `forwarding` ones change, and if all unfinished ones
      are listed and no last write is lost, none is left. */
  lemma {:induction false} AllDealt<W>(steps: seq<Step<W>>, saveWorks: nat -> bool, before: map<string, Instance>,
                                       after: map<string, Instance>, pending: seq<(string, Instance)>, ids: set<string>,
                                       start: Point<W>, rounds: seq<Round<W>>)
    requires Lists(before, pending, ids) && Rounds(steps, saveWorks, pending, start, rounds) && |rounds| == |pending|
    requires Dealt(before, after, pending, rounds)
    ensures forall id | id in before && (id !in ids || before[id].state != Forwarding) :: after[id] == before[id]
    ensures ids == Unfinished(before) && (forall k :: saveWorks(k)) ==>
              forall id | id in after :: after[id].state != Forwarding
  {
    forall id | id in before && (id !in ids || before[id].state != Forwarding) ensures after[id] == before[id] {
      if j :| 0 <= j < |pending| && pending[j].0 == id {
        assert RoundAt(steps, saveWorks, pending, start, rounds, j);
      }
    }
    if ids == Unfinished(before) && forall k :: saveWorks(k) {
      forall id | id in after && before[id].state == Forwarding ensures after[id].state != Forwarding {
        ListsAll(before, pending, ids, id);
        var j :| 0 <= j < |pending| && pending[j].0 == id;
        assert RoundAt(steps, saveWorks, pending, start, rounds, j);
      }
    }
  }

  lemma SubsetSize<T>(a: set<T>, b: set<T>)
    requires a <= b
    ensures |a| <= |b|
  {
    assert b == a + (b - a);
  }

  lemma AllOfThem<T>(a: set<T>, b: set<T>)
    requires a <= b && |a| >= |b|
    ensures a == b
  {
    assert b == a + (b - a);
  }

  function Min(a: nat, b: nat): nat { if a < b then a else b }

  /** `s` lies on an uninterrupted run that begins with event `first` in `s0`. */
  ghost predicate Reached<W>(steps: seq<Step<W>>, s0: State<W>, first: Event, s: State<W>) {
    exists saves: seq<bool> :: s == Run(steps, s0, [first] + Gos(saves))
  }

  lemma ReachedFirst<W>(steps: seq<Step<W>>, s0: State<W>, first: Event)
    ensures Reached(steps, s0, first, Apply(steps, s0, first))
  {
    RunSnoc(steps, s0, [], first);
    assert [first] + Gos([]) == [] + [first];
  }

  /** A set of machine states that no move of the worker leaves. */
  ghost predicate Closed<W(!new)>(steps: seq<Step<W>>, on: iset<State<W>>) {
    forall s, saved {:trigger Move(steps, s, saved)} :: s in on ==> Move(steps, s, saved) in on
  }

  lemma MoveStays<W(!new)>(steps: seq<Step<W>>, on: iset<State<W>>, s: State<W>, saved: bool, next: State<W>)
    requires Closed(steps, on) && s in on && next == Move(steps, s, saved)
    ensures next in on
  {
  }

  ghost function RunsFrom<W(!new)>(steps: seq<Step<W>>, s0: State<W>, first: Event): iset<State<W>> {
    iset s | Reached(steps, s0, first, s)
  }

  lemma RunsAreClosed<W(!new)>(steps: seq<Step<W>>, s0: State<W>, first: Event)
    ensures Closed(steps, RunsFrom(steps, s0, first)) && Apply(steps, s0, first) in RunsFrom(steps, s0, first)
  {
    ReachedFirst(steps, s0, first);
    forall s, saved | s in RunsFrom(steps, s0, first) ensures Move(steps, s, saved) in RunsFrom(steps, s0, first) {
      var saves :| s == Run(steps, s0, [first] + Gos(saves));
      GoOn(steps, s0, first, saves, saved);
    }
  }

  /** Started afresh, the saga has ended as `mem`. */
  ghost predicate Ended<W>(steps: seq<Step<W>>, start: Point<W>, mem: Instance, end: Point<W>) {
    RunEnds(steps, start.world, start.calls, State(Idle, mem, None, end.world, end.calls), mem.state)
  }

  lemma {:induction false} ReachedEnds<W>(steps: seq<Step<W>>, s0: State<W>, s: State<W>, start: Point<W>,
                                          end: Point<W>)
    requires s0.pc == Idle && steps != [] && s.pc == Idle && Reached(steps, s0, Event.Start(true), s)
    requires start.world == s0.world && start.calls == s0.calls && end.world == s.world && end.calls == s.calls
    ensures Ended(steps, start, s.mem, end)
  {
    var saves :| s == Run(steps, s0, [Event.Start(true)] + Gos(saves));
    RunFromStart(steps, s0, saves);
    EndsAnyway(steps, s0.world, s0.calls, s, s.mem.state);
    assert s.(disk := None) == State(Idle, s.mem, None, end.world, end.calls);
  }

  /** What is stored does not matter for how a run has ended. */
  lemma {:induction false} EndsAnyway<W>(steps: seq<Step<W>>, w: W, calls: seq<Call>, s: State<W>, out: SagaState)
    requires RunEnds(steps, w, calls, s, out)
    ensures RunEnds(steps, w, calls, s.(disk := None), out)
  {
  }

  lemma {:induction false} RecoversAnyway<W>(steps: seq<Step<W>>, w: W, calls: seq<Call>, inst: Instance, s: State<W>,
                                            out: SagaState)
    requires Recovers(steps, w, calls, inst, s, out)
    ensures Recovers(steps, w, calls, inst, s.(disk := None), out)
  {
  }

  lemma {:induction false} RecoveryEnds<W>(steps: seq<Step<W>>, s0: State<W>, inst: Instance, s: State<W>,
                                           start: Point<W>, end: Point<W>)
    requires s0.pc == Idle && s0.disk == Some(inst) && inst.state == Forwarding && |inst.results| == |steps|
    requires s.pc == Idle && Reached(steps, s0, Event.Resume, s)
    requires start.world == s0.world && start.calls == s0.calls && end.world == s.world && end.calls == s.calls
    ensures Recovered(steps, inst, start, s.mem, end)
  {
    var saves :| s == Run(steps, s0, [Event.Resume] + Gos(saves));
    RunFromStored(steps, s0, inst, saves);
    RecoversAnyway(steps, s0.world, s0.calls, inst, s, s.mem.state);
    assert s.(disk := None) == State(Idle, s.mem, None, end.world, end.calls);
  }

  /** Stored, and not in a final state. */
  predicate Unsettled(store: map<string, Instance>, id: string) {
    id in store && (store[id].state == Started || store[id].state == Forwarding)
  }

  class Coordinator<W(!new)> {
    const steps: seq<Step<W>>
    /** Whether the k-th store write of this coordinator reaches the store. */
    const saveWorks: nat -> bool
    var writes: nat
    var store: map<string, Instance>
    var world: W
    ghost var calls: seq<Call>

    constructor (steps: seq<Step<W>>, world: W, saveWorks: nat -> bool)
      ensures this.steps == steps && this.saveWorks == saveWorks && this.world == world
      ensures store == map[] && writes == 0 && calls == []
    {
      this.steps, this.saveWorks, this.world := steps, saveWorks, world;
      store, writes, calls := map[], 0, [];
    }

    /** The machine state of saga `id` when its worker stands at `pc`. */
    ghost function At(id: string, pc: Pc, inst: Instance): State<W>
      reads this
    {
      State(pc, inst, if id in store then Some(store[id]) else None, world, calls)
    }

    ghost function Standing(): Point<W>
      reads this
    {
      Point(world, calls, writes)
    }

    ghost predicate NoWriteLost() {
      forall k :: saveWorks(k)
    }

    method Save(id: string, inst: Instance) returns (ok: bool)
      modifies this`store, this`writes
      ensures ok == saveWorks(old(writes)) && writes == old(writes) + 1
      ensures store == if ok then old(store)[id := inst] else old(store)
    {
      ok := saveWorks(writes);
      writes := writes + 1;
      if ok { store := store[id := inst]; }
    }

    /** The forward call of step i: store it as running, call it, record what came of it. */
    method TryStep(id: string, inst0: Instance, i: nat, ghost on: iset<State<W>>) returns (inst: Instance, ok: bool)
      requires Closed(steps, on)
      requires i < |steps| == |inst0.results| && inst0.state == Forwarding
      requires At(id, Mark(i), inst0) in on
      modifies this`store, this`writes, this`world, this`calls
      ensures At(id, if !ok then Undo(i) else if i + 1 < |steps| then Mark(i + 1) else Finish(Completed), inst) in on
      ensures inst.state == Forwarding && |inst.results| == |steps|
      ensures store - {id} == old(store) - {id} && (Unsettled(old(store), id) ==> Unsettled(store, id))
      ensures writes > old(writes)
    {
      inst := inst0.(currentStep := i, results := inst0.results[i := Running]);
      var saved := Save(id, inst);
      MoveStays(steps, on, old(At(id, Mark(i), inst0)), saved, At(id, Call(i), inst));
      ghost var called := At(id, Call(i), inst);
      var r := Saga.Execute(steps[i], world);
      world, ok := r.0, r.1;
      calls := calls + [Exec(i)];
      if !ok {
        inst := inst.(results := inst.results[i := Broken]);
        MoveStays(steps, on, called, true, At(id, Undo(i), inst));
      } else {
        MoveStays(steps, on, called, true, At(id, Record(i), inst));
        inst := RecordStep(id, inst, i, on);
      }
    }

    method RecordStep(id: string, inst0: Instance, i: nat, ghost on: iset<State<W>>) returns (inst: Instance)
      requires Closed(steps, on)
      requires i < |steps| == |inst0.results| && At(id, Record(i), inst0) in on
      modifies this`store, this`writes
      ensures inst == inst0.(results := inst0.results[i := Done])
      ensures At(id, if i + 1 < |steps| then Mark(i + 1) else Finish(Completed), inst) in on
      ensures store == if saveWorks(old(writes)) then old(store)[id := inst] else old(store)
      ensures writes == old(writes) + 1
    {
      inst := inst0.(results := inst0.results[i := Done]);
      var saved := Save(id, inst);
      MoveStays(steps, on, old(At(id, Record(i), inst0)), saved,
                  At(id, if i + 1 < |steps| then Mark(i + 1) else Finish(Completed), inst));
    }

    /** Deals with step i on the way back: skip it, or call its compensator and store that. */
    method UndoStep(id: string, inst0: Instance, i: nat, ghost on: iset<State<W>>) returns (inst: Instance, ok: bool)
      requires Closed(steps, on)
      requires i < |steps| == |inst0.results| && At(id, Undo(i + 1), inst0) in on
      modifies this`store, this`writes, this`world, this`calls
      ensures At(id, if ok then Undo(i) else Finish(Failed), inst) in on
      ensures inst == inst0.(results := inst.results) && |inst.results| == |steps|
      ensures store == old(store) || store == old(store)[id := inst]
      ensures |calls| - |old(calls)| == writes - old(writes) + (if ok then 0 else 1) && writes >= old(writes)
    {
      inst, ok := inst0, true;
      if steps[i].compensate.None? {
        MoveStays(steps, on, At(id, Undo(i + 1), inst0), true, At(id, Undo(i), inst));
        return;
      }
      inst := inst.(results := inst.results[i := Compensated]);
      var r := Saga.Compensate(steps[i], world);
      world, calls := r.0, calls + [Comp(i)];
      ghost var called := At(id, if r.1 then UndoSave(i) else Finish(Failed), inst);
      MoveStays(steps, on, old(At(id, Undo(i + 1), inst0)), true, called);
      if !r.1 { return inst, false; }
      var saved := Save(id, inst);
      MoveStays(steps, on, called, saved, At(id, Undo(i), inst));
    }

    /** Compensates steps k-1..0. */
    method Compensate(id: string, inst0: Instance, k: nat, ghost on: iset<State<W>>)
      returns (inst: Instance, clean: bool)
      requires Closed(steps, on)
      requires k <= |steps| == |inst0.results| && At(id, Undo(k), inst0) in on
      modifies this`store, this`writes, this`world, this`calls
      ensures At(id, Finish(if clean then Compensating else Failed), inst) in on
      ensures inst == inst0.(results := inst.results) && |inst.results| == |steps|
      ensures store == old(store) || exists results :: store == old(store)[id := inst0.(results := results)]
      ensures |calls| - |old(calls)| == writes - old(writes) + (if clean then 0 else 1) && writes >= old(writes)
    {
      inst := inst0;
      var i := k;
      while i > 0
        invariant 0 <= i <= k && |inst.results| == |steps| && inst == inst0.(results := inst.results)
        invariant At(id, Undo(i), inst) in on
        invariant store == old(store) || exists results :: store == old(store)[id := inst0.(results := results)]
        invariant |calls| - |old(calls)| == writes - old(writes) >= 0
      {
        i := i - 1;
        ghost var before := store;
        inst, clean := UndoStep(id, inst, i, on);
        assert store == before || store == old(store)[id := inst0.(results := inst.results)];
        if !clean { return; }
      }
      MoveStays(steps, on, At(id, Undo(0), inst), true, At(id, Finish(Compensating), inst));
      clean := true;
    }

    /** Sets the final state and writes it. */
    method End(id: string, inst0: Instance, out: SagaState, ghost on: iset<State<W>>) returns (inst: Instance)
      requires Closed(steps, on)
      requires At(id, Finish(out), inst0) in on
      modifies this`store, this`writes
      ensures At(id, Idle, inst) in on && inst == inst0.(state := out) && writes == old(writes) + 1
      ensures store == if saveWorks(old(writes)) then old(store)[id := inst] else old(store)
    {
      inst := inst0.(state := out);
      var saved := Save(id, inst);
      MoveStays(steps, on, old(At(id, Finish(out), inst0)), saved, At(id, Idle, inst));
    }

    /** Compensates steps k-1..0 and stores the final state. Every compensator that succeeds is followed
        by a write, and so is the end; the last write decides what is stored. */
    method Abort(id: string, inst0: Instance, k: nat, ghost on: iset<State<W>>) returns (inst: Instance)
      requires Closed(steps, on)
      requires k <= |steps| == |inst0.results| && At(id, Undo(k), inst0) in on
      modifies this`store, this`writes, this`world, this`calls
      ensures At(id, Idle, inst) in on
      ensures inst.state == SagaState.Compensating || inst.state == Failed
      ensures writes - old(writes) == |calls| - |old(calls)| + if inst.state == SagaState.Compensating then 1 else 0
      ensures writes > old(writes)
      ensures if saveWorks(writes - 1) then id in store && store - {id} == old(store) - {id} && store[id] == inst
              else store == old(store) || exists results :: store == old(store)[id := inst0.(results := results)]
    {
      var clean;
      inst, clean := Compensate(id, inst0, k, on);
      inst := End(id, inst, if clean then SagaState.Compensating else Failed, on);
    }

    /** The forward loop of `Start`. */
    method Forward(id: string, inst0: Instance, ghost on: iset<State<W>>) returns (inst: Instance)
      requires Closed(steps, on)
      requires 0 < |steps| == |inst0.results| && inst0.state == Forwarding
      requires At(id, Mark(0), inst0) in on && Unsettled(store, id)
      modifies this`store, this`writes, this`world, this`calls
      ensures At(id, Idle, inst) in on
      ensures store - {id} == old(store) - {id} && id in store && writes > old(writes)
      ensures if saveWorks(writes - 1) then store[id] == inst else Unsettled(store, id)
    {
      inst := inst0;
      var i := 0;
      while i < |steps|
        invariant 0 <= i <= |steps| == |inst.results| && inst.state == Forwarding
        invariant At(id, if i < |steps| then Mark(i) else Finish(Completed), inst) in on
        invariant store - {id} == old(store) - {id} && Unsettled(store, id) && writes >= old(writes)
      {
        var ok;
        inst, ok := TryStep(id, inst, i, on);
        if !ok {
          inst := Abort(id, inst, i, on);
          return;
        }
        i := i + 1;
      }
      inst := End(id, inst, Completed, on);
    }

    /** Starts a saga and runs it to its end. */
    method Start(id: string) returns (inst: Instance, err: StartError)
      modifies this`store, this`writes, this`world, this`calls
      ensures err == (if steps == [] then EmptyDefinition else if id == "" then IdRequired
                      else if !saveWorks(old(writes)) then SaveStartFailed else NoError)
      ensures err != NoError ==> store == old(store) && world == old(world) && calls == old(calls)
      ensures err == NoError ==>
                && Reached(steps, old(At(id, Idle, Fresh(0))), Event.Start(true), At(id, Idle, inst))
                && Ended(steps, old(Standing()), inst, Standing())
                && id in store && writes > old(writes)
                && if saveWorks(writes - 1) then store[id] == inst else Unsettled(store, id)
      ensures store - {id} == old(store) - {id}
    {
      if steps == [] { return Fresh(0), EmptyDefinition; }
      if id == "" { return Fresh(0), IdRequired; }
      ghost var s0, start := At(id, Idle, Fresh(0)), Standing();
      var saved;
      inst, saved := Open(id);
      if !saved { return inst, SaveStartFailed; }
      inst := RunOpened(id, inst, s0);
      err := NoError;
      ReachedEnds(steps, s0, At(id, Idle, inst), start, Standing());
    }

    /** The rest of `Start`. */
    method RunOpened(id: string, inst0: Instance, ghost s0: State<W>) returns (inst: Instance)
      requires steps != [] && |inst0.results| == |steps| && inst0.state == Forwarding && Unsettled(store, id)
      requires Reached(steps, s0, Event.Start(true), At(id, Mark(0), inst0))
      modifies this`store, this`writes, this`world, this`calls
      ensures Reached(steps, s0, Event.Start(true), At(id, Idle, inst))
      ensures store - {id} == old(store) - {id} && id in store && writes > old(writes)
      ensures if saveWorks(writes - 1) then store[id] == inst else Unsettled(store, id)
    {
      RunsAreClosed(steps, s0, Event.Start(true));
      inst := Forward(id, inst0, RunsFrom(steps, s0, Event.Start(true)));
    }

    /** The two writes before the first step. */
    method Open(id: string) returns (inst: Instance, ok: bool)
      requires steps != []
      modifies this`store, this`writes
      ensures ok == saveWorks(old(writes))
      ensures inst.state == (if ok then Forwarding else Started) && |inst.results| == |steps|
      ensures if ok then Reached(steps, old(At(id, Idle, Fresh(0))), Event.Start(true), At(id, Mark(0), inst))
              else store == old(store)
      ensures store - {id} == old(store) - {id} && (ok ==> Unsettled(store, id)) && writes > old(writes)
    {
      inst := Fresh(|steps|);
      ghost var s0, first := At(id, Idle, Fresh(0)), Event.Start(true);
      ok := Save(id, inst);
      if !ok { return; }
      RunsAreClosed(steps, s0, first);
      ghost var begun := At(id, Begin, inst);
      inst := inst.(state := Forwarding);
      var saved := Save(id, inst);
      MoveStays(steps, RunsFrom(steps, s0, first), begun, saved, At(id, Mark(0), inst));
    }

    /** Calls step i of a resumed saga; nothing is stored in between. */
    method RetryStep(id: string, inst0: Instance, i: nat, ghost on: iset<State<W>>) returns (inst: Instance, ok: bool)
      requires Closed(steps, on)
      requires i < |steps| == |inst0.results| && At(id, Recall(i), inst0) in on
      modifies this`world, this`calls
      ensures At(id, if !ok then Undo(i) else if i + 1 < |steps| then Recall(i + 1) else Finish(Completed), inst) in on
      ensures inst == if ok then inst0.(results := inst0.results[i := Done], currentStep := i + 1) else inst0
    {
      var r := Saga.Execute(steps[i], world);
      world, calls, ok := r.0, calls + [Exec(i)], r.1;
      inst := if ok then inst0.(results := inst0.results[i := Done], currentStep := i + 1) else inst0;
      MoveStays(steps, on, old(At(id, Recall(i), inst0)), true,
                  At(id, if !ok then Undo(i) else if i + 1 < |steps| then Recall(i + 1) else Finish(Completed), inst));
    }

    /** The loop of `ResumeUnfinished` over the steps of one instance. */
    method Retry(id: string, inst0: Instance, ghost on: iset<State<W>>) returns (inst: Instance)
      requires Closed(steps, on)
      requires |inst0.results| == |steps| && inst0.state == Forwarding && id in store && store[id] == inst0
      requires At(id, if inst0.currentStep < |steps| then Recall(inst0.currentStep) else Finish(Completed), inst0) in on
      modifies this`store, this`writes, this`world, this`calls
      ensures At(id, Idle, inst) in on
      ensures store - {id} == old(store) - {id} && id in store && writes > old(writes)
      ensures if saveWorks(writes - 1) then store[id] == inst else store[id].state == Forwarding
    {
      inst := inst0;
      var i, ok := inst.currentStep, true;
      while i < |steps| && ok
        invariant |inst.results| == |steps| && inst.state == Forwarding && store == old(store) && writes == old(writes)
        invariant !ok ==> i < |steps|
        invariant At(id, if !ok then Undo(i) else if i < |steps| then Recall(i) else Finish(Completed), inst) in on
        decreases |steps| - i, ok
      {
        inst, ok := RetryStep(id, inst, i, on);
        if ok { i := i + 1; }
      }
      if ok {
        inst := End(id, inst, Completed, on);
      } else {
        inst := Abort(id, inst, i, on);
      }
    }

    /** Re-runs a stored `forwarding` instance from its stored step on. */
    method ResumeOne(id: string, inst0: Instance) returns (inst: Instance)
      requires id in store && store[id] == inst0 && inst0.state == Forwarding && |inst0.results| == |steps|
      modifies this`store, this`writes, this`world, this`calls
      ensures Reached(steps, old(At(id, Idle, inst0)), Event.Resume, At(id, Idle, inst))
      ensures Recovered(steps, inst0, old(Standing()), inst, Standing())
      ensures store - {id} == old(store) - {id} && id in store && writes > old(writes)
      ensures if saveWorks(writes - 1) then store[id] == inst else store[id].state == Forwarding
    {
      ghost var s0, start := At(id, Idle, inst0), Standing();
      inst := Rerun(id, inst0, s0);
      RecoveryEnds(steps, s0, inst0, At(id, Idle, inst), start, Standing());
    }

    method Rerun(id: string, inst0: Instance, ghost s0: State<W>) returns (inst: Instance)
      requires id in store && store[id] == inst0 && inst0.state == Forwarding && |inst0.results| == |steps|
      requires s0 == At(id, Idle, inst0)
      modifies this`store, this`writes, this`world, this`calls
      ensures Reached(steps, s0, Event.Resume, At(id, Idle, inst))
      ensures store - {id} == old(store) - {id} && id in store && writes > old(writes)
      ensures if saveWorks(writes - 1) then store[id] == inst else store[id].state == Forwarding
    {
      RunsAreClosed(steps, s0, Event.Resume);
      inst := Retry(id, inst0, RunsFrom(steps, s0, Event.Resume));
    }

    /** Reports the outcome of step `idx` of saga `id`. */
    method AdvanceStep(id: string, idx: int, stepOk: bool) returns (err: AdvanceError, ghost report: Report)
      requires id in store ==> |store[id].results| == |steps|
      modifies this`store, this`writes, this`world, this`calls
      ensures |old(calls)| <= |calls|
      ensures id !in old(store) <==> err == NotFound
      ensures id in old(store) ==>
                && report.idx == idx && report.ok == stepOk && id in store
                && Possible(PlanOf(steps), report)
                && Tracker(store[id].state, store[id].currentStep, CompsIn(calls[|old(calls)|..]))
                   == Accept(PlanOf(steps), Tracker(old(store)[id].state, old(store)[id].currentStep, {}), report)
      ensures id in old(store) ==>
                var current := idx == old(store)[id].currentStep < |steps|;
                && (err == IndexMismatch <==> idx != old(store)[id].currentStep)
                && (err == Panicked <==> idx == old(store)[id].currentStep >= |steps|)
                && (err == Advanced <==> current && stepOk && report.saved)
                && (err == SaveFailed <==> current && stepOk && !report.saved)
                && (err == StepReportedFailure <==> current && !stepOk && report.clean)
                && (err == CompensationFailed <==> current && !stepOk && !report.clean)
      ensures err == StepReportedFailure || err == CompensationFailed ==>
                0 <= idx < |steps| &&
                var u := Rollback(steps, idx, old(world));
                world == u.world && report.clean == u.clean && report.stop == u.stop
                && calls == old(calls) + Owed(steps, idx, u.stop)
      ensures err != StepReportedFailure && err != CompensationFailed ==> world == old(world) && calls == old(calls)
      ensures err == NotFound || err == IndexMismatch || err == Panicked || err == SaveFailed ==> store == old(store)
      ensures err == Advanced ==> store[id].results == old(store)[id].results[idx := Done]
      ensures (err == StepReportedFailure || err == CompensationFailed) && report.saved ==>
                Marked(steps, old(store)[id].results[idx := Broken], store[id].results, idx, report.stop)
      ensures store - {id} == old(store) - {id}
    {
      report := Report(idx, stepOk, true, 0, true);
      if id !in store { return NotFound, report; }
      var inst := store[id];
      if idx != inst.currentStep { return IndexMismatch, report; }
      if idx >= |inst.results| { return Panicked, report; }
      if !stepOk {
        ghost var u := Rollback(steps, idx, world);
        var clean, saved := FailStep(id, inst, idx);
        report := Report(idx, false, clean, u.stop, saved);
        assert calls[|old(calls)|..] == Owed(steps, idx, u.stop);
        ReportNamesCalls(steps, report);
        return if clean then StepReportedFailure else CompensationFailed, report;
      }
      inst := inst.(results := inst.results[idx := Done], currentStep := idx + 1);
      if inst.currentStep >= |steps| { inst := inst.(state := Completed); }
      var saved := Save(id, inst);
      return if saved then Advanced else SaveFailed, Report(idx, true, true, 0, saved);
    }

    /** The failure branch of `AdvanceStep`. */
    method FailStep(id: string, inst0: Instance, idx: nat) returns (clean: bool, saved: bool)
      requires idx < |steps| == |inst0.results| && id in store && store[id] == inst0
      modifies this`store, this`writes, this`world, this`calls
      ensures var u := Rollback(steps, idx, old(world));
              world == u.world && clean == u.clean && calls == old(calls) + Owed(steps, idx, u.stop)
      ensures store - {id} == old(store) - {id} && id in store && store[id].currentStep == inst0.currentStep
      ensures store[id].state == if !saved then inst0.state else if clean then SagaState.Compensating else Failed
      ensures saved ==> Marked(steps, inst0.results[idx := Broken], store[id].results, idx,
                               Rollback(steps, idx, old(world)).stop)
    {
      var inst := inst0.(results := inst0.results[idx := Broken]);
      ghost var on := iset s | Unrolls(steps, idx, world, calls, inst.results, s);
      UnrollsIsClosed(steps, idx, world, calls, inst.results);
      assert calls + Owed(steps, idx, idx) == calls;
      inst, clean := Compensate(id, inst, idx, on);
      inst := inst.(state := if clean then SagaState.Compensating else Failed);
      saved := Save(id, inst);
    }

    /** Unfinished instances, in any order: as many as there are up to `limit`, but one if `limit` is 0
        and there is one. */
    method ListUnfinished(limit: nat) returns (pending: seq<(string, Instance)>, ghost ids: set<string>)
      ensures Lists(store, pending, ids) && ids <= Unfinished(store)
      ensures |pending| == Min(|Unfinished(store)|, if limit == 0 then 1 else limit)
      ensures |Unfinished(store)| <= limit ==> ids == Unfinished(store)
    {
      pending, ids := [], {};
      var rest := store.Keys;
      while rest != {} && (pending == [] || |pending| < limit)
        invariant rest <= store.Keys && ids !! rest && ids <= Unfinished(store) <= ids + rest
        invariant Lists(store, pending, ids) && |ids| <= if limit == 0 then 1 else limit
        decreases |rest|
      {
        var id :| id in rest;
        rest := rest - {id};
        var inst := store[id];
        if inst.state != Completed && inst.state != Failed {
          ListsMore(store, pending, ids, id);
          pending, ids := pending + [(id, inst)], ids + {id};
        }
      }
      ScanEnds(ids, rest, Unfinished(store), limit);
    }

    /** Resumes what is left `forwarding`, one listed saga after the other; everything else stays as
        stored. If the limit covers all unfinished sagas, their number is returned, and if then no write
        is lost no `forwarding` saga is left. */
    method ResumeUnfinished(limit: nat)
      returns (resumed: nat, ghost pending: seq<(string, Instance)>, ghost ids: set<string>,
               ghost rounds: seq<Round<W>>)
      requires forall id | id in store :: |store[id].results| == |steps|
      modifies this`store, this`writes, this`world, this`calls
      ensures Lists(old(store), pending, ids) && ids <= Unfinished(old(store))
      ensures |pending| == Min(|Unfinished(old(store))|, if limit == 0 then 1 else limit) == |rounds|
      ensures Rounds(steps, saveWorks, pending, old(Standing()), rounds)
      ensures Standing() == PointAfter(old(Standing()), rounds, |rounds|)
      ensures Dealt(old(store), store, pending, rounds) && resumed == ForwardingCount(pending, |pending|)
      ensures forall id | id in old(store) && old(store)[id].state != Forwarding ::
                id in store && store[id] == old(store)[id]
      ensures resumed <= Min(|Unfinished(old(store))|, if limit == 0 then 1 else limit)
      ensures |Unfinished(old(store))| <= limit ==> resumed == |ForwardingIn(old(store))|
      ensures NoWriteLost() && |Unfinished(old(store))| <= limit ==>
                forall id | id in store :: store[id].state != Forwarding
    {
      var listed;
      listed, ids := ListUnfinished(limit);
      pending := listed;
      resumed, rounds := ResumeEach(listed, ids);
      AllDealt(steps, saveWorks, old(store), store, pending, ids, old(Standing()), rounds);
      if |Unfinished(old(store))| <= limit { AllToResume(old(store), pending); }
    }

    /** The loop of `ResumeUnfinished` over the listed instances. */
    method ResumeEach(pending: seq<(string, Instance)>, ghost ids: set<string>)
      returns (resumed: nat, ghost rounds: seq<Round<W>>)
      requires Lists(store, pending, ids) && forall j | 0 <= j < |pending| :: |pending[j].1.results| == |steps|
      modifies this`store, this`writes, this`world, this`calls
      ensures |rounds| == |pending| && Rounds(steps, saveWorks, pending, old(Standing()), rounds)
      ensures Standing() == PointAfter(old(Standing()), rounds, |rounds|)
      ensures Dealt(old(store), store, pending, rounds)
      ensures resumed == ForwardingCount(pending, |pending|) <= |pending|
    {
      resumed, rounds := 0, [];
      ghost var all, start := store, Standing();
      var i := 0;
      while i < |pending|
        invariant i == |rounds| <= |pending| && Rounds(steps, saveWorks, pending, start, rounds)
        invariant Standing() == PointAfter(start, rounds, |rounds|) && Dealt(all, store, pending, rounds)
        invariant resumed == ForwardingCount(pending, i) <= i
      {
        var ran;
        ran, rounds := ResumeNext(pending, i, all, ids, start, rounds);
        if ran { resumed := resumed + 1; }
        i := i + 1;
      }
    }

    method ResumeNext(pending: seq<(string, Instance)>, i: nat, ghost all: map<string, Instance>,
                      ghost ids: set<string>, ghost start: Point<W>, ghost rounds: seq<Round<W>>)
      returns (ran: bool, ghost more: seq<Round<W>>)
      requires i == |rounds| < |pending| && Lists(all, pending, ids) && |pending[i].1.results| == |steps|
      requires Rounds(steps, saveWorks, pending, start, rounds) && Standing() == PointAfter(start, rounds, |rounds|)
      requires Dealt(all, store, pending, rounds)
      modifies this`store, this`writes, this`world, this`calls
      ensures ran == (pending[i].1.state == Forwarding) && |more| == |rounds| + 1
      ensures Rounds(steps, saveWorks, pending, start, more) && Standing() == PointAfter(start, more, |more|)
      ensures Dealt(all, store, pending, more)
    {
      ghost var before := store;
      assert forall j | 0 <= j < i :: pending[j].0 != pending[i].0;
      ghost var r;
      ran, r := ResumeIfForwarding(pending[i].0, pending[i].1);
      RoundsExtend(steps, saveWorks, pending, start, rounds, r);
      DealtNext(all, before, store, pending, ids, rounds, r);
      more := rounds + [r];
    }

    /** One round of that loop. */
    method ResumeIfForwarding(id: string, inst: Instance) returns (ran: bool, ghost r: Round<W>)
      requires id in store && store[id] == inst && |inst.results| == |steps|
      modifies this`store, this`writes, this`world, this`calls
      ensures ran == (inst.state == Forwarding)
      ensures RoundOf(steps, saveWorks, inst, old(Standing()), r) && r.end == Standing()
      ensures store - {id} == old(store) - {id} && id in store && store[id] == r.stored
    {
      ran := inst.state == Forwarding;
      ghost var mem := inst;
      if ran {
        var inst1 := ResumeOne(id, inst);
        mem := inst1;
      }
      r := Round(mem, store[id], Standing());
    }
  }
}
