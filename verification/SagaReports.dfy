/** Asynchronous step reports (saga.go:338-375): services report the outcome of their own step, in
    any order and more than once. */
module SagaReports {
  import opened Saga

  /** A saga of n steps, those in `undoable` with a compensator. */
  datatype Plan = Plan(n: nat, undoable: set<nat>)

  /** A report for step `idx`. What follows `ok` is used if the report makes the saga compensate or
      advance: `clean` and `stop` say how the compensation went, which goes from step idx-1 down to
      `stop`; `saved` whether the last write of the report reaches the store. */
  datatype Report = Report(idx: int, ok: bool, clean: bool, stop: nat, saved: bool)

  /** Compensation that is not clean stops at the step whose compensator failed. */
  ghost predicate Possible(p: Plan, r: Report) {
    !r.ok ==> if r.clean then r.stop == 0 else r.stop < r.idx && r.stop in p.undoable
  }

  /** State and position of the stored instance, and the steps whose compensators have been called. */
  datatype Tracker = Tracker(state: SagaState, currentStep: nat, undone: set<nat>)

  function Called(p: Plan, r: Report): set<nat> {
    set j | j in p.undoable && r.stop <= j < r.idx
  }

  /** What a report does. A report for the index after the last step, which a completed saga takes for
      its current one, makes the source panic before it has done anything. */
  function Accept(p: Plan, t: Tracker, r: Report): Tracker {
    if r.idx != t.currentStep || t.currentStep >= p.n then t
    else if !r.ok then
      t.(undone := t.undone + Called(p, r),
         state := if !r.saved then t.state else if r.clean then Compensating else Failed)
    else if !r.saved then t
    else t.(currentStep := t.currentStep + 1, state := if t.currentStep + 1 >= p.n then Completed else t.state)
  }

  function Track(p: Plan, t: Tracker, reports: seq<Report>): Tracker {
    if reports == [] then t
    else Accept(p, Track(p, t, reports[..|reports| - 1]), reports[|reports| - 1])
  }

  /** `at` picks successful, stored reports for steps 0, 1, .., |at|-1 in order of arrival. */
  ghost predicate InOrder(n: nat, reports: seq<Report>, at: seq<nat>) {
    && |at| <= n
    && (forall k | 0 <= k < |at| :: at[k] < |reports| && var r := reports[at[k]]; r.idx == k && r.ok && r.saved)
    && (forall j, k | 0 <= j < k < |at| :: at[j] < at[k])
  }

  /** For every sequence of reports: `CurrentStep` is the length of the longest chain of successful
      reports that arrived in index order, so each step is accepted at most once, and the saga is
      `completed` exactly when the chain covers all steps. */
  lemma ReportsAccepted(p: Plan, state: SagaState, reports: seq<Report>)
    requires 0 < p.n && state != Completed
    ensures var t := Track(p, Tracker(state, 0, {}), reports);
            && t.currentStep <= p.n && (t.state == Completed <==> t.currentStep == p.n)
            && (exists at :: |at| == t.currentStep && InOrder(p.n, reports, at))
            && forall at | InOrder(p.n, reports, at) :: |at| <= t.currentStep
  {
    var at := AcceptedChain(p, state, reports);
    forall at | InOrder(p.n, reports, at) ensures |at| <= Track(p, Tracker(state, 0, {}), reports).currentStep {
      NoLongerChain(p, state, reports, at);
    }
  }

  lemma {:induction false} AcceptedChain(p: Plan, state: SagaState, reports: seq<Report>) returns (at: seq<nat>)
    requires 0 < p.n && state != Completed
    ensures var t := Track(p, Tracker(state, 0, {}), reports);
            && t.currentStep <= p.n && (t.state == Completed <==> t.currentStep == p.n)
            && |at| == t.currentStep && InOrder(p.n, reports, at)
  {
    at := [];
    if reports != [] {
      var m := |reports| - 1;
      at := AcceptedChain(p, state, reports[..m]);
      if Track(p, Tracker(state, 0, {}), reports).currentStep > |at| { at := at + [m]; }
    }
  }

  lemma {:induction false} NoLongerChain(p: Plan, state: SagaState, reports: seq<Report>, at: seq<nat>)
    requires InOrder(p.n, reports, at)
    ensures |at| <= Track(p, Tracker(state, 0, {}), reports).currentStep
  {
    assert at != [] ==> at[0] < |reports|;
    if reports != [] {
      var shorter := WithoutLast(p.n, reports, at);
      NoLongerChain(p, state, reports[..|reports| - 1], shorter);
    }
  }

  /** Dropping the last report costs a chain at most its last link. */
  lemma WithoutLast(n: nat, reports: seq<Report>, at: seq<nat>) returns (shorter: seq<nat>)
    requires reports != [] && InOrder(n, reports, at)
    ensures InOrder(n, reports[..|reports| - 1], shorter)
    ensures var last := reports[|reports| - 1];
            |at| == |shorter| || (|at| == |shorter| + 1 && last.idx == |shorter| && last.ok && last.saved)
  {
    var m, k := |reports| - 1, |at| - 1;
    shorter := if at != [] && at[k] == m then at[..k] else at;
  }

  // ---------------------------------------------------------------- steps undone behind a saga's back

  /** The report is a failure, is accepted, and there is a compensator below its step. */
  ghost predicate Undoes(p: Plan, t: Tracker, r: Report) {
    !r.ok && r.idx == t.currentStep < p.n && exists j :: j in p.undoable && j < r.idx
  }

  lemma UndoesCalls(p: Plan, t: Tracker, r: Report)
    requires Possible(p, r)
    ensures Accept(p, t, r).undone == t.undone <==> !Undoes(p, t, r) || Called(p, r) <= t.undone
    ensures Undoes(p, t, r) ==> Called(p, r) != {}
  {
    if Undoes(p, t, r) {
      var j :| j in p.undoable && j < r.idx;
      assert (if r.clean then j else r.stop) in Called(p, r);
    } else if !r.ok && r.idx == t.currentStep < p.n {
      assert Called(p, r) == {};
    }
  }

  /** The k-th report is such a failure, when it comes. */
  ghost predicate UndoesAt(p: Plan, state: SagaState, reports: seq<Report>, k: nat)
    requires k < |reports|
  {
    Undoes(p, Track(p, Tracker(state, 0, {}), reports[..k]), reports[k])
  }

  lemma {:induction false} OneMoreReport(p: Plan, state: SagaState, before: seq<Report>, r: Report)
    ensures Track(p, Tracker(state, 0, {}), before + [r]) == Accept(p, Track(p, Tracker(state, 0, {}), before), r)
    ensures UndoesAt(p, state, before + [r], |before|) <==> Undoes(p, Track(p, Tracker(state, 0, {}), before), r)
    ensures forall k | 0 <= k < |before| :: UndoesAt(p, state, before + [r], k) == UndoesAt(p, state, before, k)
  {
    var all := before + [r];
    assert all[..|before|] == before;
    assert forall k | 0 <= k < |before| :: all[..k] == before[..k] && all[k] == before[k];
  }

  /** For every sequence of reports, whatever the saga's stored state, and `completed` in particular:
      no compensator has been called exactly if no failure of the then current step was reported with
      a compensator below it. */
  lemma {:induction false} IntactIff(p: Plan, state: SagaState, reports: seq<Report>)
    requires forall r | r in reports :: Possible(p, r)
    ensures Track(p, Tracker(state, 0, {}), reports).undone == {}
            <==> forall k | 0 <= k < |reports| :: !UndoesAt(p, state, reports, k)
  {
    if reports != [] {
      var before, r := reports[..|reports| - 1], reports[|reports| - 1];
      assert reports == before + [r];
      IntactIff(p, state, before);
      OneMoreReport(p, state, before, r);
      UndoesCalls(p, Track(p, Tracker(state, 0, {}), before), r);
    }
  }

  /** In terms of the reports: a saga is stored `completed` with compensated steps exactly if some
      chain of successes covers all its steps and such a failure came at its time. */
  lemma {:induction false} CompletedButUndoneIff(p: Plan, state: SagaState, reports: seq<Report>)
    requires 0 < p.n && state != Completed && forall r | r in reports :: Possible(p, r)
    ensures var t := Track(p, Tracker(state, 0, {}), reports);
            t.state == Completed && t.undone != {} <==>
              && (exists at :: |at| == p.n && InOrder(p.n, reports, at))
              && exists k :: 0 <= k < |reports| && UndoesAt(p, state, reports, k)
  {
    ReportsAccepted(p, state, reports);
    IntactIff(p, state, reports);
  }

  const TWO_STEPS := Plan(2, {0})
  const FAILED_THEN_DONE := [Report(0, true, true, 0, true),
                            Report(1, false, true, 0, true), Report(1, true, true, 0, true)]

  /** Step 0 is reported done, step 1 failed, which undoes step 0, and step 1 done after all: the saga
      is stored as `completed`. */
  lemma {:induction false} SuccessAfterFailureCompletes()
    ensures Track(TWO_STEPS, Tracker(Forwarding, 0, {}), FAILED_THEN_DONE[..2]) == Tracker(Compensating, 1, {0})
    ensures Track(TWO_STEPS, Tracker(Forwarding, 0, {}), FAILED_THEN_DONE) == Tracker(Completed, 2, {0})
  {
    var t := Tracker(Forwarding, 0, {});
    var all := FAILED_THEN_DONE;
    assert all[..2][..1] == all[..1] && all[..1][..0] == [];
    assert Track(TWO_STEPS, t, all[..1]) == Tracker(Forwarding, 1, {});
    assert Called(TWO_STEPS, all[1]) == {0};
    assert Track(TWO_STEPS, t, all[..2]) == Tracker(Compensating, 1, {0});
  }
}
