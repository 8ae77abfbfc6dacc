/** Whatever has happened, the outbox can still come to rest, unless a malformed event was committed:
    publish what is pending, deliver what is not acknowledged (publisher.go:90-202, consumer.go:107-186). */
module OutboxProgress {
  import opened Ledger
  import opened Outbox

  const SMOOTH := Luck(true, true, true, true, true)

  lemma {:induction false} OneMore(c: Config, actions: seq<Action>, a: Action)
    requires Allowed(c, actions) && Enabled(Run(c, actions), a)
    ensures Allowed(c, actions + [a]) && Run(c, actions + [a]) == Apply(c, Run(c, actions), a)
  {
    var more := actions + [a];
    assert more[..|actions|] == actions;
    forall k | 0 <= k < |more| ensures Enabled(Run(c, more[..k]), more[k]) {
      if k < |actions| { assert more[..k] == actions[..k]; }
    }
  }

  ghost function Waiting(s: State): set<string> {
    set id | id in s.outbox && s.outbox[id].status == Pending
  }

  ghost function Unacked(s: State): set<nat> {
    set k: nat | k < |s.topic| && k !in s.acked
  }

  /** The publisher holds no rows, and none is marked as failed. */
  ghost predicate Cleared(s: State) {
    s.batch == [] && forall id | id in s.outbox :: s.outbox[id].status != Failed
  }

  lemma {:induction false} Clears(c: Config, actions: seq<Action>) returns (all: seq<Action>)
    requires Allowed(c, actions)
    ensures actions <= all && Allowed(c, all) && Cleared(Run(c, all)) && Run(c, all).order == Run(c, actions).order
  {
    OneMore(c, actions, PublisherDies);
    var ids := Run(c, actions).outbox.Keys;
    OneMore(c, actions + [PublisherDies], Replay(ids));
    all := actions + [PublisherDies] + [Replay(ids)];
  }

  /** One row is fetched and published without trouble. */
  lemma {:induction false} PublishedRow(c: Config, s: State, id: string)
    requires Inv(c, s) && Cleared(s) && id in Waiting(s)
    ensures Enabled(s, Fetch([s.outbox[id]]))
    ensures var s1 := Apply(c, s, Fetch([s.outbox[id]]));
            var s2 := Apply(c, s1, Publish(true, true, true));
            && Enabled(s1, Publish(true, true, true))
            && Cleared(s2) && Waiting(s2) == Waiting(s) - {id} && s2.order == s.order
  {
    assert s.outbox[id].evt.id == id;
  }

  lemma {:induction false} PublishesAll(c: Config, actions: seq<Action>) returns (all: seq<Action>)
    requires Allowed(c, actions) && Cleared(Run(c, actions))
    ensures actions <= all && Allowed(c, all) && Cleared(Run(c, all)) && Waiting(Run(c, all)) == {}
    ensures Run(c, all).order == Run(c, actions).order
    decreases |Waiting(Run(c, actions))|
  {
    var s := Run(c, actions);
    all := actions;
    if id :| id in Waiting(s) {
      RunKeeps(c, actions);
      PublishedRow(c, s, id);
      OneMore(c, actions, Fetch([s.outbox[id]]));
      OneMore(c, actions + [Fetch([s.outbox[id]])], Publish(true, true, true));
      all := PublishesAll(c, actions + [Fetch([s.outbox[id]])] + [Publish(true, true, true)]);
    }
  }

  ghost predicate WellFormed(events: seq<Event>) {
    forall e | e in events :: Handle(e) != Malformed
  }

  /** One message is delivered without trouble. */
  lemma {:induction false} AckedMessage(c: Config, s: State, k: nat)
    requires Inv(c, s) && WellFormed(s.order) && k in Unacked(s)
    ensures var s1 := Apply(c, s, Deliver(k, SMOOTH));
            && Unacked(s1) == Unacked(s) - {k} && s1.order == s.order && s1.outbox == s.outbox
  {
    if s.topic[k].Good? {
      assert s.topic[k] in s.topic;
      assert s.topic[k].evt in s.order;
    }
  }

  lemma {:induction false} DeliversAll(c: Config, actions: seq<Action>) returns (all: seq<Action>)
    requires Allowed(c, actions) && WellFormed(Run(c, actions).order)
    ensures actions <= all && Allowed(c, all) && Unacked(Run(c, all)) == {}
    ensures Run(c, all).order == Run(c, actions).order && Run(c, all).outbox == Run(c, actions).outbox
    decreases |Unacked(Run(c, actions))|
  {
    var s := Run(c, actions);
    all := actions;
    if k :| k in Unacked(s) {
      RunKeeps(c, actions);
      AckedMessage(c, s, k);
      OneMore(c, actions, Deliver(k, SMOOTH));
      all := DeliversAll(c, actions + [Deliver(k, SMOOTH)]);
    }
  }

  lemma {:induction false} ComesToRest(c: Config, actions: seq<Action>) returns (all: seq<Action>)
    requires Allowed(c, actions) && WellFormed(Run(c, actions).order)
    ensures actions <= all && Allowed(c, all) && Quiet(Run(c, all)) && Run(c, all).order == Run(c, actions).order
  {
    all := Clears(c, actions);
    all := PublishesAll(c, all);
    all := DeliversAll(c, all);
    RestIsQuiet(Run(c, all));
  }

  lemma RestIsQuiet(s: State)
    requires Unacked(s) == {} && Waiting(s) == {} && forall id | id in s.outbox :: s.outbox[id].status != Failed
    ensures Quiet(s)
  {
    forall id | id in s.outbox ensures s.outbox[id].status == Published { assert id !in Waiting(s); }
    forall k | 0 <= k < |s.topic| ensures k in s.acked { assert k !in Unacked(s); }
  }

  lemma {:induction false} QuietIsBooked(c: Config, actions: seq<Action>, e: Event)
    requires Allowed(c, actions) && Quiet(Run(c, actions)) && e in Run(c, actions).order
    ensures Handle(e) != Malformed && (Handle(e).Post? ==> e in Run(c, actions).booked)
  {
    RunKeeps(c, actions);
    var s := Run(c, actions);
    assert Committed(s.committed, e) && e.id in s.published;
    var k :| 0 <= k < |s.topic| && s.topic[k] == Good(e);
    assert k in s.acked && e.id in s.processed;
  }

  lemma {:induction false} OrderStays(c: Config, s: State, a: Action)
    ensures s.order <= Apply(c, s, a).order
  {
    match a
    case Append(_, _) =>
    case Deliver(k, luck) => if k < |s.topic| { DeliveryKeepsOrder(s, k, luck); }
    case _ =>
  }

  lemma {:induction false} DeliveryKeepsOrder(s: State, k: nat, luck: Luck)
    requires k < |s.topic|
    ensures DeliverOne(s, k, luck).order == s.order
  {
  }

  lemma {:induction false} OrderGrows(c: Config, actions: seq<Action>, all: seq<Action>)
    requires actions <= all
    ensures Run(c, actions).order <= Run(c, all).order
  {
    if |actions| < |all| {
      var before := all[..|all| - 1];
      OrderGrows(c, actions, before);
      OrderStays(c, Run(c, before), all[|all| - 1]);
    } else {
      assert actions == all;
    }
  }

  /** From wherever a run has come, the outbox can be brought to rest exactly if no committed event is
      malformed; and at rest every committed event that carries movements is booked. */
  lemma {:induction false} RestIsReachableIff(c: Config, actions: seq<Action>)
    requires Allowed(c, actions)
    ensures (exists all :: actions <= all && Allowed(c, all) && Quiet(Run(c, all)))
            <==> WellFormed(Run(c, actions).order)
    ensures forall e | Quiet(Run(c, actions)) && e in Run(c, actions).order && Handle(e).Post? ::
              e in Run(c, actions).booked
  {
    if WellFormed(Run(c, actions).order) { var all := ComesToRest(c, actions); }
    if all :| actions <= all && Allowed(c, all) && Quiet(Run(c, all)) {
      OrderGrows(c, actions, all);
      forall e | e in Run(c, actions).order ensures Handle(e) != Malformed { QuietIsBooked(c, all, e); }
    }
    forall e | Quiet(Run(c, actions)) && e in Run(c, actions).order && Handle(e).Post?
      ensures e in Run(c, actions).booked
    {
      QuietIsBooked(c, actions, e);
    }
  }
}
