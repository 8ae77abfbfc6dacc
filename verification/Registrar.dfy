/** The etcd registrar of packages/payment-util/kitexutil/registrar.go as an interleaving of its
    goroutines: the caller of `Register` and the keep-alive loops it leads to, the caller of
    `Deregister`, and etcd, which may close a keep-alive stream at any time. */
module Registrar {
  import opened Prelude

  type Lease = nat // 0 stands for none

  /** Where a goroutine of the registering side stands. `Add` to `Installing` are inside
      `doRegisterOnce` with a granted lease. */
  datatype Pc =
    | Granting
    | Adding(lease: Lease)
    | KeepingAlive(lease: Lease)
    | GivingUp(lease: Lease)
    | Failed
    | Installing(lease: Lease)
    | Dropping(lease: Lease)
    | Revoking(lease: Lease)
    | Looping(lease: Lease)
    | Lost(lease: Lease)
    | Checking
    | Over

  /** `inLoop`: `doRegisterOnce` is called by a keep-alive loop, which retries, and not by
      `Register`, which returns the error. */
  datatype Runner = Runner(pc: Pc, inLoop: bool)

  datatype Closer = Idle | Cancelling(lease: Lease, cancel: Option<Lease>) | RevokingLast(lease: Lease) | Closed

  /** The fields `leaseID`, `keepCanc` and `stopped`; the goroutines; then what etcd and the contexts
      have seen: number of leases granted, keep-alive streams that were opened and those still open,
      keep-alive contexts cancelled, leases etcd has revoked. */
  datatype State = State(
    leaseId: Lease, keepCanc: Option<Lease>, stopped: bool,
    runners: seq<Runner>, closer: Closer,
    granted: nat, streamed: set<Lease>, kept: set<Lease>, cancelled: set<Lease>, revoked: set<Lease>)

  const INIT := State(0, None, false, [], Idle, 0, {}, {}, {}, {})

  datatype Event =
    | Register
    | Step(i: nat, ok: bool)
    | StreamCloses(lease: Lease)
    | Deregister
    | CloserStep(ok: bool)

  predicate Enabled(s: State, e: Event) {
    match e
    case Register => true
    case Step(i, _) => i < |s.runners| && s.runners[i].pc != Over &&
      (s.runners[i].pc.Looping? ==> s.runners[i].pc.lease !in s.kept)
    case StreamCloses(l) => l in s.kept
    case Deregister => s.closer == Idle
    case CloserStep(_) => s.closer.Cancelling? || s.closer.RevokingLast?
  }

  function Cancel(s: State, l: Lease): State {
    s.(cancelled := s.cancelled + {l}, kept := s.kept - {l})
  }

  /** A revocation, whose error the source drops or returns. */
  function Revoke(s: State, l: Lease, ok: bool): State {
    if ok then s.(revoked := s.revoked + {l}) else s
  }

  function Goto(s: State, i: nat, pc: Pc): State
    requires i < |s.runners|
  {
    s.(runners := s.runners[i := s.runners[i].(pc := pc)])
  }

  /** One step of a registering goroutine; `ok` is the outcome of its etcd call, if it makes one. */
  function StepRunner(s: State, i: nat, ok: bool): State
    requires i < |s.runners|
  {
    match s.runners[i].pc
    case Granting => if ok then Goto(s.(granted := s.granted + 1), i, Adding(s.granted + 1)) else Goto(s, i, Failed)
    case Adding(l) => if ok then Goto(s, i, KeepingAlive(l)) else Goto(s, i, GivingUp(l))
    case KeepingAlive(l) =>
      if ok then Goto(s.(streamed := s.streamed + {l}, kept := s.kept + {l}), i, Installing(l))
      else Goto(s.(cancelled := s.cancelled + {l}), i, GivingUp(l))
    case GivingUp(l) => Goto(Revoke(s, l, ok), i, Failed)
    case Failed => Goto(s, i, if s.runners[i].inLoop then Checking else Over)
    case Installing(l) =>
      if s.stopped then Goto(s, i, Dropping(l))
      else s.(leaseId := l, keepCanc := Some(l), runners := s.runners[i := Runner(Looping(l), true)])
    case Dropping(l) => Goto(Cancel(s, l), i, Revoking(l))
    case Revoking(l) => Goto(Revoke(s, l, ok), i, Over)
    case Looping(l) => Goto(s, i, Lost(l))
    case Lost(_) =>
      var s1 := if s.keepCanc.Some? then Cancel(s, s.keepCanc.value) else s;
      Goto(s1.(leaseId := 0, keepCanc := None), i, if s.stopped then Over else Checking)
    case Checking => Goto(s, i, if s.stopped then Over else Granting)
    case Over => s
  }

  function Apply(s: State, e: Event): State {
    match e
    case Register => s.(runners := s.runners + [Runner(Granting, false)])
    case Step(i, ok) => if i < |s.runners| then StepRunner(s, i, ok) else s
    case StreamCloses(l) => s.(kept := s.kept - {l})
    case Deregister =>
      if s.closer != Idle then s
      else s.(stopped := true, leaseId := 0, keepCanc := None, closer := Cancelling(s.leaseId, s.keepCanc))
    case CloserStep(ok) =>
      match s.closer
      case Cancelling(l, cancel) =>
        (if cancel.Some? then Cancel(s, cancel.value) else s).(closer := if l != 0 then RevokingLast(l) else Closed)
      case RevokingLast(l) => Revoke(s, l, ok).(closer := Closed)
      case _ => s
  }

  function Run(s: State, events: seq<Event>): State {
    if events == [] then s else Apply(Run(s, events[..|events| - 1]), events[|events| - 1])
  }

  ghost predicate Allowed(s: State, events: seq<Event>) {
    events == [] || (Allowed(s, events[..|events| - 1]) &&
        Enabled(Run(s, events[..|events| - 1]), events[|events| - 1]))
  }

  // ---------------------------------------------------------------- the invariant

  /** The lease a goroutine answers for. */
  function Held(pc: Pc): Lease {
    match pc
    case Adding(l) => l
    case KeepingAlive(l) => l
    case GivingUp(l) => l
    case Installing(l) => l
    case Dropping(l) => l
    case Revoking(l) => l
    case Looping(l) => l
    case Lost(l) => l
    case _ => 0
  }

  /** Where the last registration stands. */
  function Current(s: State): Pc {
    if s.runners == [] then Over else s.runners[|s.runners| - 1].pc
  }

  /** The registration has ended, or is about to return an error from `Register`. */
  predicate Harmless(r: Runner) {
    r.pc == Over || (!r.inLoop && (r.pc.GivingUp? || r.pc == Failed))
  }

  predicate Settled(s: State) {
    s.runners != [] ==> Harmless(s.runners[|s.runners| - 1])
  }

  /** All earlier registrations are harmless. */
  ghost predicate Alone(s: State) {
    forall i | 0 <= i < |s.runners| - 1 :: Harmless(s.runners[i])
  }

  /** `Register` is never called while an earlier registration may still succeed or its loop runs. */
  ghost predicate OneAtATime(s: State, events: seq<Event>) {
    events == [] ||
    (OneAtATime(s, events[..|events| - 1]) &&
     (events[|events| - 1].Register? ==> Settled(Run(s, events[..|events| - 1]))))
  }

  function HeldByRunner(s: State): Lease {
    Held(Current(s))
  }

  function HeldByCloser(s: State): Lease {
    if s.closer.Cancelling? then s.closer.lease else 0
  }

  /** Every lease granted so far is being looked after, or was revoked, or is no longer kept alive, or
      never was. */
  ghost predicate LookedAfter(s: State) {
    forall l | 0 < l <= s.granted :: l in s.revoked || l in s.cancelled || l !in s.streamed ||
      l == HeldByRunner(s) || l == HeldByCloser(s)
  }

  ghost predicate FieldsInv(s: State) {
    && (s.leaseId != 0 <==> s.keepCanc.Some?) && (s.keepCanc.Some? ==> s.keepCanc.value == s.leaseId)
    && (s.stopped <==> s.closer != Idle)
    && (s.stopped ==> s.leaseId == 0)
    && (s.leaseId != 0 ==> Current(s) == Looping(s.leaseId) || Current(s) == Lost(s.leaseId))
  }

  ghost predicate CloserInv(s: State) {
    s.closer.Cancelling? ==>
      && (s.closer.lease != 0 <==> s.closer.cancel.Some?) &&
         (s.closer.cancel.Some? ==> s.closer.cancel.value == s.closer.lease)
      && s.closer.lease <= s.granted
      && (s.closer.lease != 0 && HeldByRunner(s) == s.closer.lease ==> Current(s).Looping? || Current(s).Lost?)
  }

  /** What is revoked is not kept alive any more or never was; and so is what an earlier registration
      gives up. */
  ghost predicate RevokedInv(s: State) {
    RevokedSets(s) && EarlierGaveUp(s)
  }

  ghost predicate RevokedSets(s: State) {
    && (forall l | l in s.revoked :: l <= s.granted && (l in s.cancelled || l !in s.streamed))
    && (s.closer.RevokingLast? ==> s.closer.lease in s.cancelled && s.closer.lease <= s.granted)
    && (Current(s).Adding? || Current(s).KeepingAlive? ==> Current(s).lease !in s.revoked)
  }

  ghost predicate EarlierGaveUp(s: State) {
    forall i | 0 <= i < |s.runners| - 1 && s.runners[i].pc.GivingUp? :: GivenUp(s, s.runners[i].pc.lease)
  }

  ghost predicate GivenUp(s: State, l: Lease) {
    0 < l <= s.granted && l !in s.streamed && l != HeldByRunner(s)
  }

  /** Somebody cancels the keep-alive of this lease, or already has. */
  ghost predicate Watched(s: State, l: Lease) {
    if s.stopped then l in s.cancelled || HeldByCloser(s) == l else s.keepCanc == Some(l)
  }

  /** Only the lease of the running goroutine is kept alive, and while it loops its keep-alive can
      be cancelled by whoever comes next. */
  ghost predicate StreamInv(s: State) {
    StreamSets(s) && PcInv(s, Current(s))
  }

  ghost predicate StreamSets(s: State) {
    && HeldByRunner(s) <= s.granted
    && s.kept !! s.cancelled && s.kept <= s.streamed
    && (forall l | l in s.kept :: l != 0 && l == HeldByRunner(s))
    && (forall l | l in s.cancelled :: l <= s.granted)
    && (forall l | l in s.streamed :: l <= s.granted)
  }

  ghost predicate PcInv(s: State, pc: Pc) {
    match pc
    case Adding(l) => l != 0 && l !in s.cancelled && l !in s.streamed
    case KeepingAlive(l) => l != 0 && l !in s.cancelled && l !in s.streamed
    case GivingUp(l) => l != 0 && l !in s.streamed
    case Installing(l) => l != 0 && l !in s.cancelled
    case Dropping(l) => l != 0 && s.stopped
    case Revoking(l) => l != 0 && s.stopped && l in s.cancelled
    case Looping(l) => l != 0 && Watched(s, l)
    case Lost(l) => l != 0 && l !in s.kept && Watched(s, l)
    case _ => true
  }

  ghost predicate Inv(s: State) {
    Alone(s) && LookedAfter(s) && FieldsInv(s) && CloserInv(s) && StreamInv(s) && RevokedInv(s)
  }

  lemma RunnerStepFields(s: State, i: nat, ok: bool)
    requires Inv(s) && Enabled(s, Step(i, ok)) && i == |s.runners| - 1
    ensures FieldsInv(StepRunner(s, i, ok)) && CloserInv(StepRunner(s, i, ok)) && Alone(StepRunner(s, i, ok))
  {
  }

  /** A lease is revoked, or not kept alive any more, or never was. */
  predicate Given(s: State, l: Lease) { l in s.revoked || l in s.cancelled || l !in s.streamed }

  lemma LeasesStay(s: State, t: State)
    requires LookedAfter(s) && HeldByCloser(t) == HeldByCloser(s)
    requires t.granted == s.granted || (t.granted == s.granted + 1 == HeldByRunner(t))
    requires s.revoked <= t.revoked && s.cancelled <= t.cancelled && t.streamed <= s.streamed + {HeldByRunner(s)}
    requires var l := HeldByRunner(s); l == 0 || l == HeldByRunner(t) || l == HeldByCloser(s) || Given(t, l)
    ensures LookedAfter(t)
  {
  }

  lemma RunnerStepLeases(s: State, i: nat, ok: bool)
    requires LookedAfter(s) && FieldsInv(s) && CloserInv(s) && PcInv(s, Current(s))
    requires Enabled(s, Step(i, ok)) && i == |s.runners| - 1
    ensures LookedAfter(StepRunner(s, i, ok))
  {
    LeasesStay(s, StepRunner(s, i, ok));
  }

  lemma RunnerStepStreams(s: State, i: nat, ok: bool)
    requires FieldsInv(s) && StreamInv(s) && Enabled(s, Step(i, ok)) && i == |s.runners| - 1
    ensures StreamSets(StepRunner(s, i, ok))
  {
  }

  lemma RunnerStepPc(s: State, i: nat, ok: bool)
    requires FieldsInv(s) && CloserInv(s) && StreamInv(s) && Enabled(s, Step(i, ok)) && i == |s.runners| - 1
    ensures PcInv(StepRunner(s, i, ok), Current(StepRunner(s, i, ok)))
  {
  }

  lemma RunnerStepRevoked(s: State, i: nat, ok: bool)
    requires StreamInv(s) && RevokedSets(s) && Enabled(s, Step(i, ok)) && i == |s.runners| - 1
    ensures RevokedSets(StepRunner(s, i, ok))
  {
  }

  lemma GivenUpStays(s: State, t: State)
    requires EarlierGaveUp(s) && |t.runners| == |s.runners|
    requires forall i | 0 <= i < |s.runners| - 1 :: t.runners[i] == s.runners[i]
    requires t.granted >= s.granted && t.streamed <= s.streamed + {HeldByRunner(s)}
    requires HeldByRunner(t) == HeldByRunner(s) || HeldByRunner(t) == 0 || HeldByRunner(t) > s.granted
    ensures EarlierGaveUp(t)
  {
    forall i | 0 <= i < |t.runners| - 1 && t.runners[i].pc.GivingUp? ensures GivenUp(t, t.runners[i].pc.lease) {
      assert GivenUp(s, s.runners[i].pc.lease);
    }
  }

  lemma RunnerStepEarlier(s: State, i: nat, ok: bool)
    requires EarlierGaveUp(s) && Enabled(s, Step(i, ok)) && i == |s.runners| - 1
    ensures EarlierGaveUp(StepRunner(s, i, ok))
  {
    GivenUpStays(s, StepRunner(s, i, ok));
  }

  lemma EarlierEnds(s: State, i: nat)
    requires Inv(s) && i < |s.runners| - 1
    ensures Inv(Goto(s, i, Over))
  {
    assert Current(Goto(s, i, Over)) == Current(s);
  }

  lemma EarlierRevokes(s: State, i: nat, l: Lease)
    requires Inv(s) && i < |s.runners| - 1 && s.runners[i] == Runner(GivingUp(l), false)
    ensures Inv(Revoke(s, l, true))
  {
    assert GivenUp(s, l);
  }

  lemma EarlierFails(s: State, i: nat)
    requires Inv(s) && i < |s.runners| - 1 && !s.runners[i].inLoop
    ensures Inv(Goto(s, i, Failed))
  {
    assert Current(Goto(s, i, Failed)) == Current(s);
  }

  lemma EarlierStep(s: State, i: nat, ok: bool)
    requires Inv(s) && Enabled(s, Step(i, ok)) && i < |s.runners| - 1
    ensures Inv(StepRunner(s, i, ok))
  {
    assert Harmless(s.runners[i]);
    if s.runners[i].pc.GivingUp? {
      if ok { EarlierRevokes(s, i, s.runners[i].pc.lease); }
      EarlierFails(Revoke(s, s.runners[i].pc.lease, ok), i);
    } else {
      EarlierEnds(s, i);
    }
  }

  lemma DeregisterKeeps(s: State)
    requires Inv(s) && Enabled(s, Deregister)
    ensures Inv(Apply(s, Deregister))
  {
  }

  lemma CloserKeeps(s: State, ok: bool)
    requires Inv(s) && Enabled(s, CloserStep(ok))
    ensures Inv(Apply(s, CloserStep(ok)))
  {
    assert Current(Apply(s, CloserStep(ok))) == Current(s);
  }

  lemma RegisterKeeps(s: State)
    requires Inv(s) && Settled(s)
    ensures Inv(Apply(s, Register))
  {
  }

  lemma StepKeeps(s: State, e: Event)
    requires Inv(s) && Enabled(s, e) && (e.Register? ==> Settled(s))
    ensures Inv(Apply(s, e))
  {
    match e
    case Register => RegisterKeeps(s);
    case Step(i, ok) =>
      if i < |s.runners| - 1 {
        EarlierStep(s, i, ok);
      } else {
        RunnerStepFields(s, i, ok);
        RunnerStepLeases(s, i, ok);
        RunnerStepStreams(s, i, ok);
        RunnerStepPc(s, i, ok);
        RunnerStepRevoked(s, i, ok);
        RunnerStepEarlier(s, i, ok);
      }
    case StreamCloses(_) =>
    case Deregister => DeregisterKeeps(s);
    case CloserStep(ok) => CloserKeeps(s, ok);
  }

  lemma {:induction false} RunKeeps(events: seq<Event>)
    requires Allowed(INIT, events) && OneAtATime(INIT, events)
    ensures Inv(Run(INIT, events))
  {
    if events != [] {
      RunKeeps(events[..|events| - 1]);
      StepKeeps(Run(INIT, events[..|events| - 1]), events[|events| - 1]);
    }
  }

  // ---------------------------------------------------------------- the theorems

  /** In every interleaving without overlapping registrations: at most one keep-alive stream is open,
      it belongs to the goroutine that is registering or looping, and a current lease is the one its
      loop watches. */
  lemma {:induction false} AtMostOneIsKeptAlive(events: seq<Event>, l: Lease, l1: Lease)
    requires Allowed(INIT, events) && OneAtATime(INIT, events)
    ensures var s := Run(INIT, events);
            && (l in s.kept && l1 in s.kept ==> l == l1)
            && (l in s.kept ==> Current(s) == Installing(l) || Current(s) == Dropping(l) || Current(s) == Looping(l))
            && (s.leaseId != 0 ==> Current(s) == Looping(s.leaseId) || Current(s) == Lost(s.leaseId))
  {
    RunKeeps(events);
  }

  /** Nothing moves by itself any more. */
  ghost predicate Quiet(s: State) {
    && (s.closer == Idle || s.closer == Closed)
    && forall i | 0 <= i < |s.runners| :: s.runners[i].pc == Over ||
         (s.runners[i].pc.Looping? && s.runners[i].pc.lease in s.kept)
  }

  /** Once `Deregister` has run and everything has come to rest, no loop is left, nothing is kept
      alive, and every lease ever granted was revoked, or has its keep-alive cancelled, or never had
      a keep-alive stream, whichever revocations failed. */
  lemma {:induction false} NothingSurvivesDeregister(events: seq<Event>, l: Lease)
    requires Allowed(INIT, events) && OneAtATime(INIT, events)
    requires Quiet(Run(INIT, events)) && Run(INIT, events).stopped
    ensures var s := Run(INIT, events);
            && s.kept == {} && s.leaseId == 0 && (forall i | 0 <= i < |s.runners| :: s.runners[i].pc == Over)
            && (0 < l <= s.granted ==> l in s.revoked || l in s.cancelled || l !in s.streamed)
  {
    RunKeeps(events);
  }

  /** How many steps a goroutine can take once the registrar is stopped. */
  function Rank(pc: Pc): nat {
    match pc
    case Granting => 8
    case Adding(_) => 7
    case KeepingAlive(_) => 6
    case GivingUp(_) => 3
    case Failed => 2
    case Installing(_) => 5
    case Dropping(_) => 4
    case Revoking(_) => 3
    case Looping(_) => 2
    case Lost(_) => 1
    case Checking => 1
    case Over => 0
  }

  function Ranks(runners: seq<Runner>): nat {
    if runners == [] then 0 else Ranks(runners[..|runners| - 1]) + Rank(runners[|runners| - 1].pc)
  }

  lemma {:induction false} RanksAfter(runners: seq<Runner>, i: nat, r: Runner)
    requires i < |runners|
    ensures Ranks(runners[i := r]) == Ranks(runners) - Rank(runners[i].pc) + Rank(r.pc)
  {
    var n := |runners| - 1;
    if i < n {
      RanksAfter(runners[..n], i, r);
      assert runners[i := r][..n] == runners[..n][i := r];
    } else {
      assert runners[i := r][..n] == runners[..n];
    }
  }

  /** The number of steps taken by the registering goroutines. */
  function Steps(events: seq<Event>): nat {
    if events == [] then 0 else Steps(events[..|events| - 1]) + if events[|events| - 1].Step? then 1 else 0
  }

  predicate NoRegister(events: seq<Event>) {
    forall e | e in events :: !e.Register?
  }

  lemma StoppedStep(s: State, i: nat, ok: bool)
    requires s.stopped && Enabled(s, Step(i, ok))
    ensures StepRunner(s, i, ok).stopped && Ranks(StepRunner(s, i, ok).runners) < Ranks(s.runners)
  {
    var s1 := StepRunner(s, i, ok);
    assert s1.runners == s.runners[i := s1.runners[i]];
    RanksAfter(s.runners, i, s1.runners[i]);
  }

  /** After `Deregister` the loops die out: however many there are and whatever etcd answers, they
      take at most as many steps as their ranks allow. */
  lemma {:induction false} StoppedLoopsEnd(s: State, events: seq<Event>)
    requires s.stopped && Allowed(s, events) && NoRegister(events)
    ensures Run(s, events).stopped && Steps(events) + Ranks(Run(s, events).runners) <= Ranks(s.runners)
  {
    if events != [] {
      var before, e := events[..|events| - 1], events[|events| - 1];
      assert e in events;
      StoppedLoopsEnd(s, before);
      if e.Step? { StoppedStep(Run(s, before), e.i, e.ok); }
    }
  }

  // ---------------------------------------------------------------- overlapping registrations

  /** What the n-th goroutine does in a registration that meets no trouble, and a shutdown after it. */
  function Attempt(n: nat): seq<Event> {
    [Step(n, true), Step(n, true), Step(n, true), Step(n, true)]
  }

  function Shutdown(n: nat): seq<Event> {
    [Deregister, CloserStep(true), CloserStep(true), Step(n, true), Step(n, true)]
  }

  lemma {:induction false} OneMore(s: State, events: seq<Event>, e: Event)
    ensures Run(s, events + [e]) == Apply(Run(s, events), e)
    ensures Allowed(s, events + [e]) <==> Allowed(s, events) && Enabled(Run(s, events), e)
  {
    assert (events + [e])[..|events|] == events;
  }

  lemma {:induction false} RunAppend(s: State, a: seq<Event>, b: seq<Event>)
    ensures Run(s, a + b) == Run(Run(s, a), b)
    ensures Allowed(s, a + b) <==> Allowed(s, a) && Allowed(Run(s, a), b)
  {
    if b == [] {
      assert a + b == a;
    } else {
      var init, last := b[..|b| - 1], b[|b| - 1];
      assert b == init + [last] && a + b == (a + init) + [last];
      OneMore(Run(s, a), init, last);
      RunAppend(s, a, init);
      OneMore(s, a + init, last);
    }
  }

  lemma {:induction false} OneFirst(s: State, e: Event, events: seq<Event>)
    ensures Run(s, [e] + events) == Run(Apply(s, e), events)
    ensures Allowed(s, [e] + events) <==> Enabled(s, e) && Allowed(Apply(s, e), events)
  {
    OneMore(s, [], e);
    assert [] + [e] == [e];
    RunAppend(s, [e], events);
  }

  /** `s` with one more goroutine. */
  function With(s: State, pc: Pc, inLoop: bool): State {
    s.(runners := s.runners + [Runner(pc, inLoop)])
  }

  /** `s` with the next lease kept alive. */
  function Streamed(s: State): State {
    var l := s.granted + 1;
    s.(granted := l, streamed := s.streamed + {l}, kept := s.kept + {l})
  }

  /** `s` with one more registration. */
  function Registered(s: State): State {
    var l := s.granted + 1;
    With(Streamed(s).(leaseId := l, keepCanc := Some(l)), Looping(l), true)
  }

  lemma LastGoes(s: State, r: Runner, next: Runner)
    ensures (s.runners + [r])[|s.runners| := next] == s.runners + [next]
    ensures Goto(With(s, r.pc, r.inLoop), |s.runners|, next.pc) == With(s, next.pc, r.inLoop)
  {
    assert (s.runners + [r])[|s.runners| := Runner(next.pc, r.inLoop)] == s.runners + [Runner(next.pc, r.inLoop)];
  }

  lemma {:induction false} FromGranting(s: State)
    ensures var l, e := s.granted + 1, Step(|s.runners|, true);
            && Apply(With(s, Granting, false), e) == With(s.(granted := l), Adding(l), false)
            && Apply(With(s.(granted := l), Adding(l), false), e) == With(s.(granted := l), KeepingAlive(l), false)
            && Apply(With(s.(granted := l), KeepingAlive(l), false), e) == With(Streamed(s), Installing(l), false)
  {
    var l := s.granted + 1;
    LastGoes(s.(granted := l), Runner(Granting, false), Runner(Adding(l), false));
    LastGoes(s.(granted := l), Runner(Adding(l), false), Runner(KeepingAlive(l), false));
    LastGoes(Streamed(s), Runner(KeepingAlive(l), false), Runner(Installing(l), false));
  }

  lemma {:induction false} FromInstalling(s: State)
    requires !s.stopped
    ensures var l := s.granted + 1;
            Apply(With(Streamed(s), Installing(l), false), Step(|s.runners|, true)) == Registered(s)
  {
    var l := s.granted + 1;
    LastGoes(Streamed(s), Runner(Installing(l), false), Runner(Looping(l), true));
  }

  lemma {:induction false} SmoothRegistration(s: State)
    requires !s.stopped
    ensures var t := Apply(s, Register);
            Allowed(t, Attempt(|s.runners|)) && Run(t, Attempt(|s.runners|)) == Registered(s)
  {
    var e, l := Step(|s.runners|, true), s.granted + 1;
    var t0, t1, t2, t3 := With(s, Granting, false), With(s.(granted := l), Adding(l), false),
                          With(s.(granted := l), KeepingAlive(l), false), With(Streamed(s), Installing(l), false);
    FromGranting(s);
    FromInstalling(s);
    assert Attempt(|s.runners|) == [e] + ([e] + ([e] + ([e] + [])));
    OneFirst(t3, e, []);
    OneFirst(t2, e, [e] + []);
    OneFirst(t1, e, [e] + ([e] + []));
    OneFirst(t0, e, [e] + ([e] + ([e] + [])));
  }

  /** The fields and leases after the shutdown of a registrar whose last goroutine is the registered one. */
  function Closing(s: State): State {
    var l := s.granted + 1;
    s.(leaseId := 0, keepCanc := None, stopped := true, closer := Closed, granted := l, streamed := s.streamed + {l},
       kept := s.kept - {l}, cancelled := s.cancelled + {l}, revoked := s.revoked + {l})
  }

  lemma {:induction false} CloserEnds(s: State)
    requires s.closer == Idle
    ensures var c := CloserStep(true);
            Allowed(Registered(s), [Deregister, c, c])
            && Run(Registered(s), [Deregister, c, c]) == With(Closing(s), Looping(s.granted + 1), true)
  {
    var l, c := s.granted + 1, CloserStep(true);
    var t := Registered(s);
    assert s.kept + {l} - {l} == s.kept - {l};
    assert Apply(Apply(Apply(t, Deregister), c), c) == With(Closing(s), Looping(l), true);
    assert [Deregister, c, c] == [Deregister] + ([c] + ([c] + []));
    OneFirst(Apply(Apply(t, Deregister), c), c, []);
    OneFirst(Apply(t, Deregister), c, [c] + []);
    OneFirst(t, Deregister, [c] + ([c] + []));
  }

  lemma {:induction false} LoopEnds(s: State)
    ensures var e, l := Step(|s.runners|, true), s.granted + 1;
            && Allowed(With(Closing(s), Looping(l), true), [e, e])
            && Run(With(Closing(s), Looping(l), true), [e, e]) == With(Closing(s), Over, true)
  {
    var e, l := Step(|s.runners|, true), s.granted + 1;
    var t, t1 := With(Closing(s), Looping(l), true), With(Closing(s), Lost(l), true);
    LastGoes(Closing(s), Runner(Looping(l), true), Runner(Lost(l), true));
    LastGoes(Closing(s), Runner(Lost(l), true), Runner(Over, true));
    assert [e, e] == [e] + ([e] + []);
    OneFirst(t1, e, []);
    OneFirst(t, e, [e] + []);
  }

  lemma {:induction false} SmoothShutdown(s: State)
    requires s.closer == Idle
    ensures Allowed(Registered(s), Shutdown(|s.runners|))
    ensures Run(Registered(s), Shutdown(|s.runners|)) == With(Closing(s), Over, true)
  {
    var e, c := Step(|s.runners|, true), CloserStep(true);
    CloserEnds(s);
    LoopEnds(s);
    assert Shutdown(|s.runners|) == [Deregister, c, c] + [e, e];
    RunAppend(Registered(s), [Deregister, c, c], [e, e]);
  }

  /** A lease is still kept alive when everything has come to rest after `Deregister`. */
  ghost predicate Leaks(events: seq<Event>) {
    var s := Run(INIT, events);
    && Allowed(INIT, events) && Quiet(s) && s.stopped
    && exists l :: l in s.kept && l !in s.revoked && l !in s.cancelled
  }

  /** How far the last registration is from looping. */
  function ToLoop(s: State): nat {
    match Current(s)
    case GivingUp(_) => 8
    case Looping(l) => if l in s.kept then 0 else 7
    case Failed => 6
    case Lost(_) => 6
    case Checking => 5
    case Granting => 4
    case Adding(_) => 3
    case KeepingAlive(_) => 2
    case Installing(l) => if l in s.kept then 1 else 8
    case _ => 0
  }

  lemma NearerToLoop(s: State)
    requires Inv(s) && !s.stopped && !Settled(s) && ToLoop(s) > 0
    ensures var e := Step(|s.runners| - 1, true);
            && Enabled(s, e) && !Apply(s, e).stopped && !Settled(Apply(s, e)) && ToLoop(Apply(s, e)) < ToLoop(s)
            && |Apply(s, e).runners| == |s.runners|
  {
  }

  predicate StepsOf(events: seq<Event>, n: nat) {
    forall k | 0 <= k < |events| :: events[k] == Step(n, true)
  }

  lemma {:induction false} OneNearer(events: seq<Event>, steps: seq<Event>, e: Event)
    requires Allowed(INIT, events + steps) && OneAtATime(INIT, events + steps)
    requires Enabled(Run(INIT, events + steps), e) && !e.Register?
    ensures Allowed(INIT, events + (steps + [e])) && OneAtATime(INIT, events + (steps + [e]))
    ensures Run(INIT, events + (steps + [e])) == Apply(Run(INIT, events + steps), e)
  {
    OneMore(INIT, events + steps, e);
    assert events + (steps + [e]) == (events + steps) + [e];
    assert (events + steps + [e])[..|events + steps|] == events + steps;
  }

  /** Unless it is settled or everything is stopped, the last registration can still come to loop. */
  lemma {:induction false} ComesToLoop(events: seq<Event>, steps: seq<Event>) returns (all: seq<Event>)
    requires Allowed(INIT, events + steps) && OneAtATime(INIT, events + steps)
    requires var s := Run(INIT, events + steps); !s.stopped && !Settled(s) && StepsOf(steps, |s.runners| - 1)
    ensures Allowed(INIT, events + all) && OneAtATime(INIT, events + all)
    ensures var s := Run(INIT, events + all);
            && |s.runners| == |Run(INIT, events + steps).runners| && StepsOf(all, |s.runners| - 1)
            && !s.stopped && Current(s).Looping? && Current(s).lease in s.kept
    decreases ToLoop(Run(INIT, events + steps))
  {
    var s := Run(INIT, events + steps);
    RunKeeps(events + steps);
    if ToLoop(s) == 0 { return steps; }
    var e := Step(|s.runners| - 1, true);
    NearerToLoop(s);
    OneNearer(events, steps, e);
    all := ComesToLoop(events, steps + [e]);
  }

  /** Moving a goroutine and adding one can be done in either order. */
  lemma GotoFirst(s: State, i: nat, pc: Pc)
    requires i < |s.runners|
    ensures Goto(Apply(s, Register), i, pc) == Apply(Goto(s, i, pc), Register)
  {
    var r, x := Runner(Granting, false), s.runners[i].(pc := pc);
    assert (s.runners + [r])[i := x] == s.runners[i := x] + [r];
  }

  lemma InstallFirst(s: State, i: nat, l: Lease)
    requires i < |s.runners| && s.runners[i].pc == Installing(l)
    ensures Apply(Apply(s, Register), Step(i, true)) == Apply(Apply(s, Step(i, true)), Register)
  {
    GotoFirst(s, i, Dropping(l));
    var r, x := Runner(Granting, false), Runner(Looping(l), true);
    assert (s.runners + [r])[i := x] == s.runners[i := x] + [r];
  }

  lemma ForgetFirst(s: State, i: nat, l: Lease)
    requires i < |s.runners| && s.runners[i].pc == Lost(l)
    ensures Apply(Apply(s, Register), Step(i, true)) == Apply(Apply(s, Step(i, true)), Register)
  {
    var s1 := if s.keepCanc.Some? then Cancel(s, s.keepCanc.value) else s;
    GotoFirst(s1.(leaseId := 0, keepCanc := None), i, if s.stopped then Over else Checking);
  }

  lemma Commutes(s: State, i: nat)
    requires i < |s.runners|
    ensures Apply(Apply(s, Register), Step(i, true)) == Apply(Apply(s, Step(i, true)), Register)
  {
    match s.runners[i].pc
    case Granting => GotoFirst(s.(granted := s.granted + 1), i, Adding(s.granted + 1));
    case Adding(l) => GotoFirst(s, i, KeepingAlive(l));
    case KeepingAlive(l) => GotoFirst(s.(streamed := s.streamed + {l}, kept := s.kept + {l}), i, Installing(l));
    case GivingUp(l) => GotoFirst(Revoke(s, l, true), i, Failed);
    case Failed => GotoFirst(s, i, if s.runners[i].inLoop then Checking else Over);
    case Installing(l) => InstallFirst(s, i, l);
    case Dropping(l) => GotoFirst(Cancel(s, l), i, Revoking(l));
    case Revoking(l) => GotoFirst(Revoke(s, l, true), i, Over);
    case Looping(l) => GotoFirst(s, i, Lost(l));
    case Lost(l) => ForgetFirst(s, i, l);
    case Checking => GotoFirst(s, i, if s.stopped then Over else Granting);
    case Over =>
  }

  lemma {:induction false} StepCommutes(s: State, i: nat)
    requires Enabled(s, Step(i, true))
    ensures Enabled(Apply(s, Register), Step(i, true)) && |Apply(s, Step(i, true)).runners| == |s.runners|
    ensures Apply(Apply(s, Register), Step(i, true)) == Apply(Apply(s, Step(i, true)), Register)
  {
    Commutes(s, i);
  }

  lemma {:induction false} OneMoreCommutes(s: State, t: State, before: seq<Event>, i: nat)
    requires Allowed(s, before) && Enabled(Run(s, before), Step(i, true))
    requires Allowed(t, before) && Run(t, before) == Apply(Run(s, before), Register)
    ensures var steps := before + [Step(i, true)];
            && |Run(s, steps).runners| == |Run(s, before).runners|
            && Allowed(t, steps) && Run(t, steps) == Apply(Run(s, steps), Register)
  {
    OneMore(s, before, Step(i, true));
    OneMore(t, before, Step(i, true));
    StepCommutes(Run(s, before), i);
  }

  lemma {:induction false} RegisterCommutes(s: State, i: nat, steps: seq<Event>)
    requires i < |s.runners| && StepsOf(steps, i) && Allowed(s, steps)
    ensures |Run(s, steps).runners| == |s.runners|
    ensures Allowed(Apply(s, Register), steps) && Run(Apply(s, Register), steps) == Apply(Run(s, steps), Register)
  {
    if steps != [] {
      var before := steps[..|steps| - 1];
      RegisterCommutes(s, i, before);
      assert steps == before + [Step(i, true)];
      OneMoreCommutes(s, Apply(s, Register), before, i);
    }
  }

  /** Every goroutine loops on an open stream or is about to end. */
  ghost predicate Draining(s: State) {
    forall i | 0 <= i < |s.runners| :: Harmless(s.runners[i]) ||
         (s.runners[i].pc.Looping? && s.runners[i].pc.lease in s.kept)
  }

  lemma {:induction false} DrainStep(s: State, i: nat)
    requires Draining(s) && i < |s.runners| && Harmless(s.runners[i]) && s.runners[i].pc != Over
    ensures var t := Apply(s, Step(i, false));
            Enabled(s, Step(i, false)) && Draining(t) &&
            t == s.(runners := t.runners) && Ranks(t.runners) < Ranks(s.runners)
  {
    var x := s.runners[i].(pc := if s.runners[i].pc == Failed then Over else Failed);
    assert Apply(s, Step(i, false)) == s.(runners := s.runners[i := x]);
    RanksAfter(s.runners, i, x);
  }

  /** They do end, while nothing else changes. */
  lemma {:induction false} Drains(s: State) returns (rest: seq<Event>)
    requires Draining(s) && s.closer == Closed
    ensures NoRegister(rest) && Allowed(s, rest) && Quiet(Run(s, rest))
    ensures Run(s, rest) == s.(runners := Run(s, rest).runners)
    decreases Ranks(s.runners)
  {
    if i :| 0 <= i < |s.runners| && Harmless(s.runners[i]) && s.runners[i].pc != Over {
      DrainStep(s, i);
      var e := Step(i, false);
      var more := Drains(Apply(s, e));
      OneFirst(s, e, more);
      return [e] + more;
    }
    return [];
  }

  lemma {:induction false} SmoothLife(s: State)
    requires !s.stopped && s.closer == Idle
    ensures var t, life := Apply(s, Register), Attempt(|s.runners|) + Shutdown(|s.runners|);
            Allowed(t, life) && Run(t, life) == With(Closing(s), Over, true)
  {
    SmoothRegistration(s);
    SmoothShutdown(s);
    RunAppend(Apply(s, Register), Attempt(|s.runners|), Shutdown(|s.runners|));
  }

  lemma {:induction false} LeftBehind(s: State, l: Lease)
    requires Inv(s) && Current(s) == Looping(l) && l in s.kept
    ensures var t := With(Closing(s), Over, true); Draining(t) && l in t.kept && l !in t.revoked && l !in t.cancelled
  {
    var t := With(Closing(s), Over, true);
    forall i | 0 <= i < |t.runners| ensures Harmless(t.runners[i]) || t.runners[i].pc == Looping(l) {
      if i < |s.runners| - 1 { assert t.runners[i] == s.runners[i]; }
    }
  }

  /** From a registrar whose only loop is on lease l: one more registration, then shutdown, leaves l
      kept alive for ever. */
  lemma {:induction false} LeakRemains(s: State, l: Lease) returns (rest: seq<Event>)
    requires Inv(s) && !s.stopped && Current(s) == Looping(l) && l in s.kept
    ensures var t := Run(Apply(s, Register), rest);
            && NoRegister(rest) && Allowed(Apply(s, Register), rest)
            && Quiet(t) && t.stopped && l in t.kept && l !in t.revoked && l !in t.cancelled
  {
    var life := Attempt(|s.runners|) + Shutdown(|s.runners|);
    SmoothLife(s);
    LeftBehind(s, l);
    var drained := Drains(With(Closing(s), Over, true));
    RunAppend(Apply(s, Register), life, drained);
    rest := life + drained;
  }

  /** A `Register` while an earlier registration may still succeed or its loop runs, whatever came
      before. */
  lemma {:induction false} OverlappingRegisterLeaks(events: seq<Event>) returns (rest: seq<Event>)
    requires Allowed(INIT, events) && OneAtATime(INIT, events)
    requires !Run(INIT, events).stopped && !Settled(Run(INIT, events))
    ensures NoRegister(rest) && Leaks(events + [Register] + rest)
  {
    var s := Run(INIT, events);
    assert events + [] == events;
    var steps := ComesToLoop(events, []);
    RunKeeps(events + steps);
    RunAppend(INIT, events, steps);
    RegisterCommutes(s, |s.runners| - 1, steps);
    var more := LeakRemains(Run(s, steps), Current(Run(s, steps)).lease);
    RunAppend(Apply(s, Register), steps, more);
    OneMore(INIT, events, Register);
    RunAppend(INIT, events + [Register], steps + more);
    rest := steps + more;
  }

  lemma {:induction false} StillOneAtATime(events: seq<Event>, rest: seq<Event>)
    requires OneAtATime(INIT, events) && NoRegister(rest)
    ensures OneAtATime(INIT, events + rest)
  {
    if rest == [] {
      assert events + rest == events;
    } else {
      var before := rest[..|rest| - 1];
      StillOneAtATime(events, before);
      assert rest[|rest| - 1] in rest && (events + rest)[..|events + rest| - 1] == events + before;
    }
  }

  lemma {:induction false} ApartDoesNotLeak(events: seq<Event>)
    requires OneAtATime(INIT, events)
    ensures !Leaks(events)
  {
    if Leaks(events) { NothingSurvivesDeregister(events, 0); }
  }

  /** When `Register` may be called, as long as `Deregister` has not been: it opens the way to a leak
      (a lease still kept alive when everything rests after `Deregister`) exactly if the registration
      before it has neither ended nor failed. */
  lemma {:induction false} RegisterLeaksIff(events: seq<Event>)
    requires Allowed(INIT, events) && OneAtATime(INIT, events) && !Run(INIT, events).stopped
    ensures (exists rest :: NoRegister(rest) && Leaks(events + [Register] + rest)) <==> !Settled(Run(INIT, events))
  {
    if Settled(Run(INIT, events)) {
      assert (events + [Register])[..|events|] == events;
      forall rest | NoRegister(rest) ensures !Leaks(events + [Register] + rest) {
        StillOneAtATime(events + [Register], rest);
        ApartDoesNotLeak(events + [Register] + rest);
      }
    } else {
      var rest := OverlappingRegisterLeaks(events);
    }
  }

  /** A registration by the n-th goroutine that meets no trouble. */
  function Registration(n: nat): seq<Event> {
    [Register] + Attempt(n)
  }

  lemma {:induction false} FirstRegistered()
    ensures Allowed(INIT, Registration(0)) && Run(INIT, Registration(0)) == Registered(INIT)
    ensures |Registered(INIT).runners| == 1 && Registered(INIT).closer == Idle && !Registered(INIT).stopped
  {
    SmoothRegistration(INIT);
    OneFirst(INIT, Register, Attempt(0));
  }

  lemma {:induction false} FirstLeft()
    ensures var t := With(Closing(Registered(INIT)), Over, true);
            Quiet(t) && t.stopped && 1 in t.kept && 1 !in t.revoked && 1 !in t.cancelled
  {
    var t := With(Closing(Registered(INIT)), Over, true);
    assert t.runners == [Runner(Looping(1), true), Runner(Over, true)];
    assert t.kept == {1} && t.revoked == {2} && t.cancelled == {2};
  }

  /** Two registrations in a row are the smallest case: the second overwrites `keepCanc`, and the first
      lease stays. */
  lemma {:induction false} SecondRegisterLeaks()
    ensures Leaks(Registration(0) + Registration(1) + Shutdown(1))
  {
    var life := Attempt(1) + Shutdown(1);
    FirstRegistered();
    FirstLeft();
    SmoothLife(Registered(INIT));
    OneFirst(Registered(INIT), Register, life);
    RunAppend(INIT, Registration(0), [Register] + life);
    assert Registration(0) + Registration(1) + Shutdown(1) == Registration(0) + ([Register] + life);
  }
}
