/** `EtcdRegistry` statement by statement. Between any two critical sections of a method the other
    goroutines and etcd may take any steps of Registrar; every method is a path of that machine. */
module EtcdRegistry {
  import opened Prelude
  import opened Registrar

  /** What may happen next. With `apart`, nobody calls `Register` while an earlier registration may
      still succeed or its loop runs. */
  predicate Possible(s: State, e: Event, apart: bool) {
    Enabled(s, e) && (apart && e.Register? ==> Settled(s))
  }

  /** A set of states that no event leaves. */
  ghost predicate ClosedUnder(on: iset<State>, apart: bool) {
    forall s, e {:trigger Apply(s, e)} :: s in on && Possible(s, e, apart) ==> Apply(s, e) in on
  }

  lemma Stays(on: iset<State>, apart: bool, s: State, e: Event, next: State)
    requires ClosedUnder(on, apart) && s in on && Possible(s, e, apart) && next == Apply(s, e)
    ensures next in on
  {
  }

  /** The states that runs reach. */
  ghost function Reachable(apart: bool): iset<State> {
    iset s | ReachedBy(s, apart)
  }

  ghost predicate ReachedBy(s: State, apart: bool) {
    exists events :: Allowed(INIT, events) && (apart ==> OneAtATime(INIT, events)) && s == Run(INIT, events)
  }

  lemma {:induction false} ReachableIsClosed(apart: bool)
    ensures INIT in Reachable(apart) && ClosedUnder(Reachable(apart), apart)
  {
    assert Allowed(INIT, []) && OneAtATime(INIT, []) && INIT == Run(INIT, []);
    forall s, e {:trigger Apply(s, e)} | s in Reachable(apart) && Possible(s, e, apart)
      ensures Apply(s, e) in Reachable(apart)
    {
      var events :| Allowed(INIT, events) && (apart ==> OneAtATime(INIT, events)) && s == Run(INIT, events);
      OneMore(INIT, events, e);
      assert apart ==> OneAtATime(INIT, events + [e]) by { assert (events + [e])[..|events|] == events; }
    }
  }

  /** The outcomes of the etcd calls of one registration attempt. */
  datatype Luck = Luck(grants: bool, adds: bool, keeps: bool, revokes: bool) {
    /** The attempt succeeds. */
    predicate Good() { grants && adds && keeps }
  }

  /** The first n attempts fail. */
  predicate AllFailed(lucks: seq<Luck>, n: nat)
    requires n <= |lucks|
  {
    forall k | 0 <= k < n :: !lucks[k].Good()
  }

  /** What others do while goroutine `mine` (or, if `closing`, the caller of `Deregister`) is
      between two of its own steps. */
  predicate ByOthers(s: State, e: Event, mine: nat, closing: bool, apart: bool) {
    Possible(s, e, apart) && (e.Step? ==> closing || e.i != mine) && (closing ==> !e.Deregister? && !e.CloserStep?)
  }

  /** What such steps leave alone. */
  ghost predicate Beside(s: State, t: State, mine: nat, closing: bool) {
    && |t.runners| >= |s.runners|
    && (!closing ==> mine < |s.runners| && t.runners[mine] == s.runners[mine])
    && (closing ==> t.closer == s.closer)
    && s.cancelled <= t.cancelled && s.revoked <= t.revoked && s.streamed <= t.streamed && s.granted <= t.granted
    && (s.stopped ==> t.stopped)
    && (s.stopped && s.leaseId == 0 && s.keepCanc == None ==> t.leaseId == 0 && t.keepCanc == None)
  }

  lemma OthersLeaveItAlone(s: State, e: Event, mine: nat, closing: bool, apart: bool)
    requires ByOthers(s, e, mine, closing, apart) && (closing || mine < |s.runners|)
    ensures Beside(s, Apply(s, e), mine, closing)
  {
  }

  class Registry {
    // Whether the callers keep their registrations apart.
    const apart: bool
    var leaseId: Lease
    var keepCanc: Option<Lease>
    var stopped: bool
    // The other goroutines, etcd, and the keep-alive contexts.
    var runners: seq<Runner>
    var closer: Closer
    var granted: nat
    var streamed: set<Lease>
    var kept: set<Lease>
    var cancelled: set<Lease>
    var revoked: set<Lease>

    constructor (apart: bool)
      ensures Now() == INIT && this.apart == apart
    {
      this.apart := apart;
      leaseId, keepCanc, stopped := 0, None, false;
      runners, closer, granted, streamed, kept, cancelled, revoked := [], Idle, 0, {}, {}, {}, {};
    }

    function Now(): State
      reads this
    {
      State(leaseId, keepCanc, stopped, runners, closer, granted, streamed, kept, cancelled, revoked)
    }

    ghost predicate Within(on: iset<State>)
      reads this
    {
      ClosedUnder(on, apart) && Now() in on
    }

    /** Events of the others, as far as they can happen. */
    method Others(events: seq<Event>, mine: nat, closing: bool, ghost on: iset<State>)
      requires Within(on) && (closing || mine < |runners|)
      modifies this
      ensures Within(on) && Beside(old(Now()), Now(), mine, closing)
    {
      var i := 0;
      while i < |events|
        invariant Within(on) && Beside(old(Now()), Now(), mine, closing)
      {
        if ByOthers(Now(), events[i], mine, closing, apart) {
          Become(events[i], mine, closing, on);
        }
        i := i + 1;
      }
    }

    method Become(e: Event, mine: nat, closing: bool, ghost on: iset<State>)
      requires Within(on) && (closing || mine < |runners|) && ByOthers(Now(), e, mine, closing, apart)
      modifies this
      ensures Within(on) && Beside(old(Now()), Now(), mine, closing)
    {
      var s := Apply(Now(), e);
      Stays(on, apart, Now(), e, s);
      OthersLeaveItAlone(Now(), e, mine, closing, apart);
      leaseId, keepCanc, stopped := s.leaseId, s.keepCanc, s.stopped;
      runners, closer, granted := s.runners, s.closer, s.granted;
      streamed, kept, cancelled, revoked := s.streamed, s.kept, s.cancelled, s.revoked;
      assert Now() == s;
    }

    method Goto(mine: nat, pc: Pc)
      requires mine < |runners|
      modifies this`runners
      ensures Now() == Registrar.Goto(old(Now()), mine, pc)
    {
      runners := runners[mine := runners[mine].(pc := pc)];
    }

    /** The lock section at the end of `doRegisterOnce`. */
    method Install(mine: nat, lease: Lease, ghost on: iset<State>) returns (wasStopped: bool)
      requires mine < |runners| && runners[mine].pc == Installing(lease)
      requires Within(on)
      modifies this`leaseId, this`keepCanc, this`runners
      ensures Within(on) && |runners| == old(|runners|) && wasStopped == stopped
      ensures runners[mine].pc == if wasStopped then Dropping(lease) else Looping(lease)
      ensures !wasStopped ==> leaseId == lease && keepCanc == Some(lease) && runners[mine].inLoop
    {
      wasStopped := stopped;
      if !wasStopped {
        leaseId := lease;
        keepCanc := Some(lease);
        runners := runners[mine := Runner(Looping(lease), true)];
      } else {
        Goto(mine, Dropping(lease));
      }
      Stays(on, apart, old(Now()), Step(mine, true), Now());
    }

    /** A revocation whose error is dropped, after which the goroutine stands at `next`. */
    method Revoke(mine: nat, lease: Lease, ok: bool, next: Pc, ghost on: iset<State>)
      requires mine < |runners| && (next == Failed || next == Over)
      requires runners[mine].pc == if next == Failed then GivingUp(lease) else Revoking(lease)
      requires Within(on)
      modifies this`revoked, this`runners
      ensures Within(on) && |runners| == old(|runners|) && runners[mine] == old(runners[mine]).(pc := next)
      ensures revoked == if ok then old(revoked) + {lease} else old(revoked)
    {
      if ok { revoked := revoked + {lease}; }
      Goto(mine, next);
      Stays(on, apart, old(Now()), Step(mine, ok), Now());
    }

    /** The three etcd calls: grant, add the endpoint, open the keep-alive stream. */
    method Acquire(mine: nat, luck: Luck, others: nat -> seq<Event>, ghost on: iset<State>)
      returns (lease: Lease, ok: bool)
      requires mine < |runners| && runners[mine].pc == Granting
      requires Within(on)
      modifies this
      ensures Within(on) && |runners| >= old(|runners|) && runners[mine].inLoop == old(runners[mine].inLoop)
      ensures runners[mine].pc == if ok then Installing(lease) else Failed
      ensures ok == luck.Good()
      ensures ok ==> lease == old(granted) + 1 <= granted && lease in streamed
      ensures !ok && luck.grants && luck.revokes ==> old(granted) + 1 in revoked
      ensures granted >= old(granted) && (old(stopped) ==> stopped)
    {
      lease, ok := Grant(mine, luck.grants, on);
      if !ok { return; }
      Others(others(0), mine, false, on);
      ok := AddEndpoint(mine, lease, luck.adds, on);
      ok := Keep(mine, lease, luck, others, on);
    }

    method Grant(mine: nat, works: bool, ghost on: iset<State>) returns (lease: Lease, ok: bool)
      requires mine < |runners| && runners[mine].pc == Granting
      requires Within(on)
      modifies this`granted, this`runners
      ensures Within(on) && |runners| == old(|runners|) && ok == works
      ensures runners[mine] == old(runners[mine]).(pc := if ok then Adding(lease) else Failed)
      ensures granted == if ok then lease else old(granted)
      ensures lease == old(granted) + 1
    {
      lease := granted + 1;
      if works { granted := lease; }
      Goto(mine, if works then Adding(lease) else Failed);
      Stays(on, apart, old(Now()), Step(mine, works), Now());
      return lease, works;
    }

    method AddEndpoint(mine: nat, lease: Lease, works: bool, ghost on: iset<State>) returns (ok: bool)
      requires mine < |runners| && runners[mine].pc == Adding(lease)
      requires Within(on)
      modifies this`runners
      ensures Within(on) && |runners| == old(|runners|) && ok == works
      ensures runners[mine] == old(runners[mine]).(pc := if ok then KeepingAlive(lease) else GivingUp(lease))
    {
      Goto(mine, if works then KeepingAlive(lease) else GivingUp(lease));
      Stays(on, apart, old(Now()), Step(mine, works), Now());
      return works;
    }

    /** The rest of `Acquire`: if the endpoint or the stream fails, the lease is given back. */
    method Keep(mine: nat, lease: Lease, luck: Luck, others: nat -> seq<Event>, ghost on: iset<State>)
      returns (ok: bool)
      requires mine < |runners| && runners[mine].pc == if luck.adds then KeepingAlive(lease) else GivingUp(lease)
      requires Within(on)
      modifies this
      ensures Within(on) && |runners| >= old(|runners|) && runners[mine].inLoop == old(runners[mine].inLoop)
      ensures runners[mine].pc == if ok then Installing(lease) else Failed
      ensures ok == (luck.adds && luck.keeps) && (ok ==> lease in streamed)
      ensures !ok && luck.revokes ==> lease in revoked
      ensures granted >= old(granted) && (old(stopped) ==> stopped)
    {
      ok := false;
      Others(others(1), mine, false, on);
      if luck.adds {
        ok := KeepAlive(mine, lease, luck.keeps, on);
        Others(others(2), mine, false, on);
      }
      if !ok { Revoke(mine, lease, luck.revokes, Failed, on); }
    }

    /** The keep-alive stream is opened, or its context cancelled. */
    method KeepAlive(mine: nat, lease: Lease, works: bool, ghost on: iset<State>) returns (ok: bool)
      requires mine < |runners| && runners[mine].pc == KeepingAlive(lease)
      requires Within(on)
      modifies this`streamed, this`kept, this`cancelled, this`runners
      ensures Within(on) && |runners| == old(|runners|) && ok == works && (ok ==> lease in streamed)
      ensures runners[mine] == old(runners[mine]).(pc := if ok then Installing(lease) else GivingUp(lease))
    {
      if works { streamed, kept := streamed + {lease}, kept + {lease}; } else { cancelled := cancelled + {lease}; }
      Goto(mine, if works then Installing(lease) else GivingUp(lease));
      Stays(on, apart, old(Now()), Step(mine, works), Now());
      return works;
    }

    /** The goroutine loops on a lease that was granted after the first `since`, and that is the
        current one. */
    ghost predicate InEffect(mine: nat, since: nat)
      reads this
    {
      && mine < |runners| && runners[mine].inLoop && runners[mine].pc.Looping? && !stopped
      && var l := runners[mine].pc.lease;
      && since < l <= granted && l in streamed && leaseId == l && keepCanc == Some(l)
    }

    /** `doRegisterOnce`. It succeeds also when the registrar turns out to be stopped: then the new
        lease is given back and no loop starts. A lease it was granted and does not keep is revoked, as
        far as etcd lets it. */
    method DoRegisterOnce(mine: nat, luck: Luck, others: nat -> seq<Event>, ghost on: iset<State>) returns (ok: bool)
      requires mine < |runners| && runners[mine].pc == Granting
      requires Within(on)
      modifies this
      ensures Within(on) && |runners| >= old(|runners|)
      ensures ok == luck.Good() && granted >= old(granted) && (old(stopped) ==> stopped)
      ensures !ok ==> runners[mine] == Runner(Failed, old(runners[mine].inLoop))
      ensures ok ==> if runners[mine].pc == Over then stopped else InEffect(mine, old(granted))
      ensures runners[mine].pc.Looping? ==> runners[mine].pc.lease == old(granted) + 1
      ensures luck.grants && luck.revokes && !runners[mine].pc.Looping? ==> old(granted) + 1 in revoked
    {
      var lease;
      lease, ok := Acquire(mine, luck, others, on);
      if !ok { return false; }
      var wasStopped := Install(mine, lease, on);
      if wasStopped { GiveBack(mine, lease, luck.revokes, others, on); }
      return true;
    }

    /** The lease turned out to be unwanted. */
    method GiveBack(mine: nat, lease: Lease, revokes: bool, others: nat -> seq<Event>, ghost on: iset<State>)
      requires mine < |runners| && runners[mine].pc == Dropping(lease) && stopped
      requires Within(on)
      modifies this
      ensures Within(on) && |runners| >= old(|runners|) && runners[mine].pc == Over && stopped
      ensures granted >= old(granted) && lease in cancelled && (revokes ==> lease in revoked)
    {
      Drop(mine, lease, on);
      Others(others(3), mine, false, on);
      Revoke(mine, lease, revokes, Over, on);
    }

    method Drop(mine: nat, lease: Lease, ghost on: iset<State>)
      requires mine < |runners| && runners[mine].pc == Dropping(lease)
      requires Within(on)
      modifies this`cancelled, this`kept, this`runners
      ensures Within(on) && |runners| == old(|runners|) && runners[mine] == old(runners[mine]).(pc := Revoking(lease))
      ensures cancelled == old(cancelled) + {lease}
    {
      cancelled, kept := cancelled + {lease}, kept - {lease};
      Goto(mine, Revoking(lease));
      Stays(on, apart, old(Now()), Step(mine, true), Now());
    }

    /** The first lock section of `keepaliveLoop`, after its stream has closed. */
    method Forget(mine: nat, lease: Lease, ghost on: iset<State>) returns (wasStopped: bool)
      requires mine < |runners| && runners[mine].pc == Lost(lease)
      requires Within(on)
      modifies this`leaseId, this`keepCanc, this`cancelled, this`kept, this`runners
      ensures Within(on) && |runners| == old(|runners|) && wasStopped == stopped && leaseId == 0 && keepCanc == None
      ensures runners[mine] == old(runners[mine]).(pc := if wasStopped then Over else Checking)
    {
      wasStopped := stopped;
      leaseId := 0;
      if keepCanc.Some? {
        cancelled, kept := cancelled + {keepCanc.value}, kept - {keepCanc.value};
        keepCanc := None;
      }
      Goto(mine, if wasStopped then Over else Checking);
      Stays(on, apart, old(Now()), Step(mine, true), Now());
    }

    /** The retries of `keepaliveLoop`, one for each entry of `lucks`. The goroutine gives up trying only
        when everything is stopped; it is still trying if every attempt has failed; otherwise it loops on
        a lease one of its attempts was granted. */
    method Retry(mine: nat, lucks: seq<Luck>, others: nat -> nat -> seq<Event>, ghost on: iset<State>)
      requires mine < |runners| && runners[mine] == Runner(Checking, true)
      requires Within(on)
      modifies this
      ensures Within(on) && |runners| >= old(|runners|)
      ensures Tried(mine, lucks, old(granted))
    {
      var n := 0;
      while n < |lucks|
        invariant Within(on) && |runners| >= old(|runners|) && runners[mine] == Runner(Checking, true)
        invariant n <= |lucks| && granted >= old(granted) && AllFailed(lucks, n)
      {
        var goesOn := MayTry(mine, on);
        if !goesOn { return; }
        var ok := DoRegisterOnce(mine, lucks[n], others(n), on);
        if ok { return; }
        AfterFailure(mine, on);
        n := n + 1;
      }
    }

    /** The lock section before each retry. */
    method MayTry(mine: nat, ghost on: iset<State>) returns (goesOn: bool)
      requires mine < |runners| && runners[mine].pc == Checking
      requires Within(on)
      modifies this`runners
      ensures Within(on) && |runners| == old(|runners|) && goesOn == !stopped
      ensures runners[mine] == old(runners[mine]).(pc := if goesOn then Granting else Over)
    {
      Goto(mine, if stopped then Over else Granting);
      Stays(on, apart, old(Now()), Step(mine, true), Now());
      return !stopped;
    }

    /** A failed attempt is retried by the loop, and ends `Register`. */
    method AfterFailure(mine: nat, ghost on: iset<State>)
      requires mine < |runners| && runners[mine].pc == Failed
      requires Within(on)
      modifies this`runners
      ensures Within(on) && |runners| == old(|runners|)
      ensures runners[mine] == old(runners[mine]).(pc := if old(runners[mine]).inLoop then Checking else Over)
    {
      Goto(mine, if runners[mine].inLoop then Checking else Over);
      Stays(on, apart, old(Now()), Step(mine, true), Now());
    }

    ghost predicate Tried(mine: nat, lucks: seq<Luck>, since: nat)
      reads this
    {
      && mine < |runners|
      && if runners[mine].pc == Over then stopped
         else if runners[mine].pc == Checking then AllFailed(lucks, |lucks|)
         else InEffect(mine, since) && !AllFailed(lucks, |lucks|)
    }

    /** `keepaliveLoop`, once its stream has closed. */
    method KeepaliveLoop(mine: nat, lease: Lease, lucks: seq<Luck>, others: nat -> nat -> seq<Event>,
                         ghost on: iset<State>)
      requires mine < |runners| && runners[mine] == Runner(Looping(lease), true) && lease !in kept
      requires Within(on)
      modifies this
      ensures Within(on) && Tried(mine, lucks, old(granted))
    {
      Goto(mine, Lost(lease));
      Stays(on, apart, old(Now()), Step(mine, true), Now());
      Others(others(|lucks|)(0), mine, false, on);
      var wasStopped := Forget(mine, lease, on);
      if !wasStopped { Retry(mine, lucks, others, on); }
    }

    /** `Register`: a new goroutine's single attempt. */
    method Register(luck: Luck, others: nat -> seq<Event>, ghost on: iset<State>) returns (ok: bool)
      requires Within(on) && (apart ==> Settled(Now()))
      modifies this
      ensures Within(on) && ok == luck.Good()
      ensures |runners| > |old(runners)|
      ensures if runners[|old(runners)|].pc == Over then ok ==> stopped
              else ok && InEffect(|old(runners)|, old(granted))
      ensures luck.grants && luck.revokes && runners[|old(runners)|].pc == Over ==> old(granted) + 1 in revoked
    {
      var mine := |runners|;
      runners := runners + [Runner(Granting, false)];
      Stays(on, apart, old(Now()), Event.Register, Now());
      ok := DoRegisterOnce(mine, luck, others, on);
      if !ok { AfterFailure(mine, on); }
    }

    /** `Deregister`. Only the first call does anything; it returns the error of its revocation, which
        etcd answers with `revokes`. */
    method Deregister(revokes: bool, others: nat -> seq<Event>, ghost on: iset<State>) returns (ok: bool)
      requires closer == Idle || closer == Closed
      requires Within(on)
      modifies this
      ensures Within(on) && closer == Closed
      ensures ok == (old(closer) == Closed || old(leaseId) == 0 || revokes)
      ensures old(closer) == Closed ==> Now() == old(Now())
      ensures old(closer) == Idle ==> stopped && leaseId == 0 && keepCanc == None
      ensures old(closer) == Idle && old(keepCanc).Some? ==> old(keepCanc).value in cancelled
      ensures old(closer) == Idle && old(leaseId) != 0 && ok ==> old(leaseId) in revoked
    {
      if closer == Closed { return true; }
      stopped := true;
      var id, cancel := leaseId, keepCanc;
      leaseId, keepCanc := 0, None;
      closer := Cancelling(id, cancel);
      Stays(on, apart, old(Now()), Event.Deregister, Now());
      Others(others(0), 0, true, on);
      CancelLast(on);
      ok := true;
      if id != 0 {
        Others(others(1), 0, true, on);
        ok := RevokeLast(revokes, on);
      }
    }

    method CancelLast(ghost on: iset<State>)
      requires closer.Cancelling? && Within(on)
      modifies this`cancelled, this`kept, this`closer
      ensures Within(on) && closer == if old(closer).lease != 0 then RevokingLast(old(closer).lease) else Closed
      ensures cancelled == old(cancelled) + if old(closer).cancel.Some? then {old(closer).cancel.value} else {}
    {
      var id, cancel := closer.lease, closer.cancel;
      if cancel.Some? { cancelled, kept := cancelled + {cancel.value}, kept - {cancel.value}; }
      closer := if id != 0 then RevokingLast(id) else Closed;
      Stays(on, apart, old(Now()), CloserStep(true), Now());
    }

    method RevokeLast(revokes: bool, ghost on: iset<State>) returns (ok: bool)
      requires closer.RevokingLast? && Within(on)
      modifies this`revoked, this`closer
      ensures Within(on) && closer == Closed && ok == revokes
      ensures revoked == old(revoked) + if ok then {old(closer).lease} else {}
    {
      if revokes { revoked := revoked + {closer.lease}; }
      closer := Closed;
      Stays(on, apart, old(Now()), CloserStep(revokes), Now());
      return revokes;
    }
  }

  /** A registry whose registrations were kept apart has given everything back when it has come to
      rest after `Deregister`. */
  lemma {:induction false} RegistryGivesEverythingBack(r: Registry, l: Lease)
    requires r.apart && r.Within(Reachable(true)) && r.stopped && Quiet(r.Now())
    ensures r.kept == {} && r.leaseId == 0 && (forall i | 0 <= i < |r.runners| :: r.runners[i].pc == Over)
    ensures 0 < l <= r.granted ==> l in r.revoked || l in r.cancelled || l !in r.streamed
  {
    var events :| Allowed(INIT, events) && OneAtATime(INIT, events) && r.Now() == Run(INIT, events);
    NothingSurvivesDeregister(events, l);
  }
}
