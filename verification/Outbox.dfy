/** The transactional outbox as a whole: business transactions that append events, one publisher,
    an at-least-once topic, a deduplicating consumer and the booking core behind it
    (packages/payment-util/outbox/append.go, publisher.go, consumer.go). Every way in which a call
    can half-succeed is an input of an action. */
module Outbox {
  import opened Prelude
  import opened Ledger

  datatype Status = Pending | Published | Failed
  datatype Row = Row(evt: Event, status: Status, retries: nat)
  datatype Message = Good(evt: Event) | Bad

  /** `maxRetries` and `failedDlq` of the publisher. */
  datatype Config = Config(maxRetries: int, failedDlq: bool)

  /** The first part is stored: the outbox table, the topic with the messages acknowledged so far,
      the consumer's table, the booking core's keys and balances. `batch` is the publisher's memory.
      The last part is history: committed events by id and in order, booked events, ids whose
      publication succeeded, ids removed by cleanup, failed publications of an event since its
      creation or last replay. */
  datatype State = State(
    outbox: map<string, Row>, topic: seq<Message>, acked: set<nat>, processed: set<string>,
    keys: set<string>, balances: Balances,
    batch: seq<Row>,
    committed: map<string, Event>, order: seq<Event>, booked: seq<Event>,
    published: set<string>, deleted: set<string>, failures: map<string, nat>)

  const EMPTY := State(map[], [], {}, {}, {}, map[], [], map[], [], [], {}, {}, map[])

  /** How one delivery can go: the transaction opens, the booking call applies its movements, the
      booking call reports success, the transaction commits, the acknowledgement arrives. */
  datatype Luck = Luck(opens: bool, books: bool, answers: bool, commits: bool, acks: bool)

  datatype Action =
    | Append(evt: Event, commits: bool)
    | Fetch(rows: seq<Row>)
    | Publish(sent: bool, ok: bool, updated: bool)
    | PublisherDies
    | Replay(ids: set<string>)
    | Cleanup(ids: set<string>)
    | Deliver(k: nat, luck: Luck)
    | Garbage

  /** `Event.Validate`. */
  predicate Valid(e: Event) {
    e.id != "" && e.kind != "" && e.body != ""
  }

  function AppendRow(s: State, e: Event): State {
    s.(outbox := s.outbox[e.id := Row(e, Pending, 0)], committed := s.committed[e.id := e],
       order := s.order + [e], failures := s.failures[e.id := 0])
  }

  /** The next row of the batch goes to `Publish`: the message may reach the topic even if the call
      reports an error. */
  function Send(s: State, sent: bool, ok: bool): State
    requires s.batch != []
  {
    var e := s.batch[0].evt;
    s.(batch := s.batch[1..],
       topic := if sent || ok then s.topic + [Good(e)] else s.topic,
       published := if ok then s.published + {e.id} else s.published,
       failures := if ok then s.failures
                   else s.failures[e.id := if e.id in s.failures then s.failures[e.id] + 1 else 1])
  }

  /** What a publication makes of the table row, given the retry count the publisher read. */
  function Settle(c: Config, retries: nat, row: Row, ok: bool): Row {
    if ok then row.(status := Published)
    else if c.failedDlq && retries + 1 >= c.maxRetries then row.(status := Failed, retries := retries + 1)
    else row.(retries := retries + 1)
  }

  /** One publication from the batch; the status update may be lost. */
  function PublishNext(c: Config, s: State, sent: bool, ok: bool, updated: bool): State
    requires s.batch != []
  {
    var id := s.batch[0].evt.id;
    var s1 := Send(s, sent, ok);
    if updated && id in s.outbox
    then s1.(outbox := s.outbox[id := Settle(c, s.batch[0].retries, s.outbox[id], ok)]) else s1
  }

  function ReplayRows(s: State, ids: set<string>): State {
    var hit := set id | id in ids && id in s.outbox && s.outbox[id].status == Failed;
    s.(outbox := map id | id in s.outbox ::
                if id in hit then s.outbox[id].(status := Pending, retries := 0) else s.outbox[id],
       failures := map id | id in s.failures :: if id in hit then 0 else s.failures[id])
  }

  function CleanRows(s: State, ids: set<string>): State {
    var hit := set id | id in ids && id in s.outbox && s.outbox[id].status == Published;
    s.(outbox := s.outbox - hit, deleted := s.deleted + hit)
  }

  function BookingKey(e: Event): string { "evt:" + e.id }

  /** `PostMovements` with the event's idempotency key: a key seen before is answered without effect. */
  function Book(s: State, e: Event, movements: seq<Movement>): State {
    if BookingKey(e) in s.keys then s
    else s.(keys := s.keys + {BookingKey(e)}, balances := PostAll(s.balances, movements), booked := s.booked + [e])
  }

  /** `processOne` and the acknowledgement that follows its success. */
  function DeliverOne(s: State, k: nat, luck: Luck): State
    requires k < |s.topic|
  {
    var acked := if luck.acks then s.acked + {k} else s.acked;
    if s.topic[k].Bad? then s.(acked := acked)
    else
      var e := s.topic[k].evt;
      if !luck.opens then s
      else if e.id in s.processed then (if luck.commits then s.(acked := acked) else s)
      else
        match Handle(e)
        case Malformed => s
        case Ignored => if luck.commits then s.(processed := s.processed + {e.id}, acked := acked) else s
        case Post(movements) =>
          var s1 := if luck.books then Book(s, e, movements) else s;
          if luck.books && luck.answers && luck.commits
          then s1.(processed := s1.processed + {e.id}, acked := acked) else s1
  }

  /** The publisher's rows are different pending rows, and still as it read them. */
  ghost predicate BatchInv(batch: seq<Row>, outbox: map<string, Row>) {
    && (forall i | 0 <= i < |batch| ::
         batch[i].evt.id in outbox && outbox[batch[i].evt.id] == batch[i] && batch[i].status == Pending)
    && (forall i, j | 0 <= i < j < |batch| :: batch[i].evt.id != batch[j].evt.id)
  }

  ghost predicate Enabled(s: State, a: Action) {
    match a
    case Append(e, commits) => Valid(e) && (e.id in s.committed ==> e.id in s.outbox)
    case Fetch(rows) => s.batch == [] && BatchInv(rows, s.outbox)
    case Publish(_, _, _) => s.batch != []
    case Deliver(k, _) => k < |s.topic|
    case _ => true
  }

  function Apply(c: Config, s: State, a: Action): State {
    match a
    case Append(e, commits) => if commits && e.id !in s.outbox then AppendRow(s, e) else s
    case Fetch(rows) => s.(batch := rows)
    case Publish(sent, ok, updated) => if s.batch == [] then s else PublishNext(c, s, sent, ok, updated)
    case PublisherDies => s.(batch := [])
    case Replay(ids) => ReplayRows(s, ids)
    case Cleanup(ids) => CleanRows(s, ids)
    case Deliver(k, luck) => if k < |s.topic| then DeliverOne(s, k, luck) else s
    case Garbage => s.(topic := s.topic + [Bad])
  }

  function Run(c: Config, actions: seq<Action>): State {
    if actions == [] then EMPTY else Apply(c, Run(c, actions[..|actions| - 1]), actions[|actions| - 1])
  }

  ghost predicate Allowed(c: Config, actions: seq<Action>) {
    forall k | 0 <= k < |actions| :: Enabled(Run(c, actions[..k]), actions[k])
  }

  // ---------------------------------------------------------------- the invariant

  type History = map<string, Event>

  predicate Committed(h: History, e: Event) {
    e.id in h && h[e.id] == e
  }

  ghost predicate OrderInv(h: History, order: seq<Event>) {
    Distinct(order) && forall e :: e in order <==> Committed(h, e)
  }

  /** Every committed event is in the outbox or was deleted after publication, and nothing else is. */
  ghost predicate RowInv(h: History, outbox: map<string, Row>, deleted: set<string>) {
    && (forall id | id in h :: h[id].id == id && (id in outbox || id in deleted))
    && (forall id | id in outbox :: Committed(h, outbox[id].evt) && outbox[id].evt.id == id)
    && deleted !! outbox.Keys
  }

  ghost predicate StatusInv(c: Config, outbox: map<string, Row>, published: set<string>, failures: map<string, nat>) {
    forall id | id in outbox ::
      && (outbox[id].status == Published ==> id in published)
      && id in failures && outbox[id].retries <= failures[id]
      && (outbox[id].status == Failed ==> c.failedDlq && failures[id] >= c.maxRetries)
  }

  /** What was published is in the topic, and the topic holds committed events only. */
  ghost predicate TopicInv(h: History, topic: seq<Message>, published: set<string>, deleted: set<string>) {
    && deleted <= published
    && (forall id | id in published :: id in h && Good(h[id]) in topic)
    && (forall m | m in topic && m.Good? :: Committed(h, m.evt))
  }

  ghost predicate AckInv(topic: seq<Message>, acked: set<nat>, processed: set<string>) {
    forall k | k in acked :: k < |topic| && (topic[k].Good? ==> topic[k].evt.id in processed)
  }

  /** Processed events came from the topic and were booked if they carry movements. */
  ghost predicate ProcessedInv(h: History, topic: seq<Message>, processed: set<string>, booked: seq<Event>) {
    && (forall id | id in processed :: id in h && Good(h[id]) in topic
          && Handle(h[id]) != Malformed && (Handle(h[id]).Post? ==> h[id] in booked))
    && (forall e | e in booked :: Committed(h, e) && Good(e) in topic && Handle(e).Post?)
  }

  /** The booking core has seen exactly the keys of the booked events, each once, and its balances
      are their sum. */
  ghost predicate BookInv(keys: set<string>, balances: Balances, booked: seq<Event>) {
    && Distinct(booked)
    && keys == (set e | e in booked :: BookingKey(e))
    && (forall account, currency :: Balance(balances, account, currency) == Effects(booked, account, currency))
  }

  ghost predicate PublisherInv(c: Config, s: State) {
    && BatchInv(s.batch, s.outbox) && RowInv(s.committed, s.outbox, s.deleted)
    && StatusInv(c, s.outbox, s.published, s.failures) && TopicInv(s.committed, s.topic, s.published, s.deleted)
  }

  ghost predicate ConsumerInv(s: State) {
    && AckInv(s.topic, s.acked, s.processed) && ProcessedInv(s.committed, s.topic, s.processed, s.booked)
    && BookInv(s.keys, s.balances, s.booked)
  }

  ghost predicate Inv(c: Config, s: State) {
    OrderInv(s.committed, s.order) && PublisherInv(c, s) && ConsumerInv(s)
  }

  // ---------------------------------------------------------------- every action keeps it

  lemma AppendOrders(h: History, order: seq<Event>, e: Event)
    requires OrderInv(h, order) && e.id !in h
    ensures OrderInv(h[e.id := e], order + [e])
  {
    assert e !in order;
    forall x ensures x in order + [e] <==> Committed(h[e.id := e], x) {
      assert x in order <==> Committed(h, x);
    }
  }

  lemma AppendTopic(h: History, topic: seq<Message>, published: set<string>, deleted: set<string>, e: Event)
    requires TopicInv(h, topic, published, deleted) && e.id !in h
    ensures TopicInv(h[e.id := e], topic, published, deleted)
  {
  }

  lemma AppendRows(h: History, outbox: map<string, Row>, deleted: set<string>, batch: seq<Row>, e: Event)
    requires RowInv(h, outbox, deleted) && BatchInv(batch, outbox) && e.id !in h && e.id !in outbox && e.id !in deleted
    ensures RowInv(h[e.id := e], outbox[e.id := Row(e, Pending, 0)], deleted)
    ensures BatchInv(batch, outbox[e.id := Row(e, Pending, 0)])
  {
  }

  lemma AppendPublisher(c: Config, s: State, e: Event)
    requires PublisherInv(c, s) && e.id !in s.committed
    ensures PublisherInv(c, AppendRow(s, e))
  {
    assert e.id !in s.outbox && e.id !in s.deleted;
    AppendTopic(s.committed, s.topic, s.published, s.deleted, e);
    AppendRows(s.committed, s.outbox, s.deleted, s.batch, e);
  }

  lemma AppendConsumer(s: State, e: Event)
    requires ConsumerInv(s) && e.id !in s.committed
    ensures ConsumerInv(AppendRow(s, e))
  {
  }

  lemma Grows(topic: seq<Message>, m: Message)
    ensures forall x :: x in topic + [m] <==> x in topic || x == m
  {
  }

  lemma PublishTopic(h: History, topic: seq<Message>, published: set<string>, deleted: set<string>, e: Event,
                     sent: bool, ok: bool)
    requires TopicInv(h, topic, published, deleted) && Committed(h, e)
    ensures TopicInv(h, if sent || ok then topic + [Good(e)] else topic,
                     if ok then published + {e.id} else published, deleted)
  {
    Grows(topic, Good(e));
  }

  lemma PublishBatch(c: Config, s: State, sent: bool, ok: bool, updated: bool)
    requires BatchInv(s.batch, s.outbox) && s.batch != []
    ensures var s1 := PublishNext(c, s, sent, ok, updated); BatchInv(s1.batch, s1.outbox)
  {
  }

  lemma PublishRows(c: Config, s: State, sent: bool, ok: bool, updated: bool)
    requires PublisherInv(c, s) && s.batch != []
    ensures var s1 := PublishNext(c, s, sent, ok, updated);
            && RowInv(s1.committed, s1.outbox, s1.deleted) && StatusInv(c, s1.outbox, s1.published, s1.failures)
  {
    var r := s.batch[0];
    assert s.outbox[r.evt.id] == r && Committed(s.committed, r.evt);
  }

  lemma PublishKeeps(c: Config, s: State, sent: bool, ok: bool, updated: bool)
    requires Inv(c, s) && s.batch != []
    ensures Inv(c, PublishNext(c, s, sent, ok, updated))
  {
    var r := s.batch[0];
    assert Committed(s.committed, r.evt);
    PublishRows(c, s, sent, ok, updated);
    PublishBatch(c, s, sent, ok, updated);
    PublishTopic(s.committed, s.topic, s.published, s.deleted, r.evt, sent, ok);
    Grows(s.topic, Good(r.evt));
  }

  lemma BookKeeps(s: State, e: Event, movements: seq<Movement>)
    requires ConsumerInv(s) && Committed(s.committed, e) && Good(e) in s.topic && Handle(e) == Post(movements)
    ensures var s1 := Book(s, e, movements); ConsumerInv(s1) && e in s1.booked
  {
    var s1 := Book(s, e, movements);
    if BookingKey(e) in s.keys {
      var x :| x in s.booked && BookingKey(x) == BookingKey(e);
      assert BookingKey(x)[4..] == x.id && BookingKey(e)[4..] == e.id;
    } else {
      forall account, currency
        ensures Balance(s1.balances, account, currency) == Effects(s1.booked, account, currency) {
        PostAllAdds(s.balances, movements, account, currency);
        assert s1.booked[..|s.booked|] == s.booked;
      }
      assert e !in s.booked;
      assert forall x :: x in s1.booked <==> x in s.booked || x == e;
    }
  }

  lemma ProcessKeeps(s: State, e: Event, k: nat, acks: bool)
    requires ConsumerInv(s) && Committed(s.committed, e) && k < |s.topic| && s.topic[k] == Good(e)
    requires Handle(e) != Malformed && (Handle(e).Post? ==> e in s.booked)
    ensures ConsumerInv(s.(processed := s.processed + {e.id}, acked := if acks then s.acked + {k} else s.acked))
  {
    assert s.topic[k] in s.topic;
  }

  lemma DeliverKeeps(s: State, k: nat, luck: Luck)
    requires ConsumerInv(s) && k < |s.topic| && (s.topic[k].Good? ==> Committed(s.committed, s.topic[k].evt))
    ensures ConsumerInv(DeliverOne(s, k, luck))
  {
    if s.topic[k].Good? && luck.opens && s.topic[k].evt.id !in s.processed {
      var e := s.topic[k].evt;
      assert s.topic[k] in s.topic;
      match Handle(e)
      case Malformed =>
      case Ignored => if luck.commits { ProcessKeeps(s, e, k, luck.acks); }
      case Post(movements) =>
        if luck.books {
          BookKeeps(s, e, movements);
          if luck.answers && luck.commits { ProcessKeeps(Book(s, e, movements), e, k, luck.acks); }
        }
    }
  }

  lemma DeliveryStep(c: Config, s: State, k: nat, luck: Luck)
    requires Inv(c, s) && k < |s.topic|
    ensures Inv(c, DeliverOne(s, k, luck))
  {
    assert s.topic[k] in s.topic;
    DeliverKeeps(s, k, luck);
    var s1 := DeliverOne(s, k, luck);
    assert s1 == s.(acked := s1.acked, processed := s1.processed, keys := s1.keys,
                   balances := s1.balances, booked := s1.booked);
  }

  lemma GarbageStep(c: Config, s: State)
    requires Inv(c, s)
    ensures Inv(c, s.(topic := s.topic + [Bad]))
  {
    Grows(s.topic, Bad);
  }

  lemma ReplayKeeps(c: Config, s: State, ids: set<string>)
    requires PublisherInv(c, s)
    ensures PublisherInv(c, ReplayRows(s, ids))
  {
  }

  lemma CleanupKeeps(c: Config, s: State, ids: set<string>)
    requires PublisherInv(c, s)
    ensures PublisherInv(c, CleanRows(s, ids))
  {
  }

  lemma StepKeeps(c: Config, s: State, a: Action)
    requires Inv(c, s) && Enabled(s, a)
    ensures Inv(c, Apply(c, s, a))
  {
    match a
    case Append(e, commits) =>
      if commits && e.id !in s.outbox {
        AppendOrders(s.committed, s.order, e);
        AppendPublisher(c, s, e);
        AppendConsumer(s, e);
      }
    case Fetch(_) =>
    case Publish(sent, ok, updated) => PublishKeeps(c, s, sent, ok, updated);
    case PublisherDies =>
    case Replay(ids) => ReplayKeeps(c, s, ids);
    case Cleanup(ids) => CleanupKeeps(c, s, ids);
    case Deliver(k, luck) => DeliveryStep(c, s, k, luck);
    case Garbage => GarbageStep(c, s);
  }

  lemma {:induction false} RunKeeps(c: Config, actions: seq<Action>)
    requires Allowed(c, actions)
    ensures Inv(c, Run(c, actions))
  {
    if actions != [] {
      var n := |actions| - 1;
      assert forall k | 0 <= k < n :: actions[..n][..k] == actions[..k];
      RunKeeps(c, actions[..n]);
      StepKeeps(c, Run(c, actions[..n]), actions[n]);
    } else {
      assert Inv(c, EMPTY);
    }
  }

  // ---------------------------------------------------------------- the theorems

  /** Exactly-once effect. In every run, the balances are those of the booked events, each counted
      once; an event is booked only if its business transaction committed, and an event the consumer
      has recorded as processed is booked if it carries movements. */
  lemma {:induction false} ExactlyOnceEffect(c: Config, actions: seq<Action>, account: string, currency: string)
    requires Allowed(c, actions)
    ensures var s := Run(c, actions);
            && Balance(s.balances, account, currency) == Effects(s.booked, account, currency)
            && Distinct(s.booked) && (forall e | e in s.booked :: e in s.order && Handle(e).Post?)
            && (forall id | id in s.processed :: id in s.committed
                  && (Handle(s.committed[id]).Post? ==> s.committed[id] in s.booked))
  {
    RunKeeps(c, actions);
  }

  /** No loss. In every run a committed event is pending, or published, or given up after the
      configured number of failures, or deleted after publication; and once `Publish` has succeeded
      the event is in the topic. */
  lemma {:induction false} NoEventIsLost(c: Config, actions: seq<Action>, e: Event)
    requires Allowed(c, actions)
    ensures var s := Run(c, actions);
            e in s.order ==>
              && (e.id in s.deleted ==> e.id !in s.outbox && e.id in s.published)
              && (e.id !in s.deleted ==> e.id in s.outbox && s.outbox[e.id].evt == e)
              && (e.id in s.outbox && s.outbox[e.id].status == Published ==> e.id in s.published)
              && (e.id in s.outbox && s.outbox[e.id].status == Failed ==>
                    c.failedDlq && e.id in s.failures && s.failures[e.id] >= c.maxRetries)
              && (e.id in s.published ==> Good(e) in s.topic)
  {
    RunKeeps(c, actions);
    var s := Run(c, actions);
    assert e in s.order <==> Committed(s.committed, e);
  }

  /** Nothing left to do: no pending or failed row, every message acknowledged. */
  ghost predicate Quiet(s: State) {
    && (forall id | id in s.outbox :: s.outbox[id].status == Published)
    && (forall k | 0 <= k < |s.topic| :: k in s.acked)
  }

  /** End to end. Once everything has been published and acknowledged, the balances are those of
      applying every committed event exactly once, in commit order. */
  lemma {:induction false} QuietMeansAllBookedOnce(c: Config, actions: seq<Action>, account: string, currency: string)
    requires Allowed(c, actions) && Quiet(Run(c, actions))
    ensures var s := Run(c, actions);
            Balance(s.balances, account, currency) == Effects(s.order, account, currency)
  {
    RunKeeps(c, actions);
    var s := Run(c, actions);
    forall e | e in s.order && e !in s.booked ensures !Handle(e).Post? {
      assert Committed(s.committed, e) && e.id in s.published;
      var k :| 0 <= k < |s.topic| && s.topic[k] == Good(e);
      assert k in s.acked && e.id in s.processed;
    }
    assert forall e | e in s.booked :: Committed(s.committed, e) && e in s.order;
    SameEventsSameEffect(s.booked, s.order, account, currency);
  }

  function Rebuild(events: seq<Event>): Balances {
    if events == [] then map[]
    else
      var b, e := Rebuild(events[..|events| - 1]), events[|events| - 1];
      if Handle(e).Post? then PostAll(b, Handle(e).movements) else b
  }

  lemma {:induction false} RebuildAdds(events: seq<Event>, account: string, currency: string)
    ensures Balance(Rebuild(events), account, currency) == Effects(events, account, currency)
  {
    if events != [] {
      var b, e := Rebuild(events[..|events| - 1]), events[|events| - 1];
      RebuildAdds(events[..|events| - 1], account, currency);
      if Handle(e).Post? { PostAllAdds(b, Handle(e).movements, account, currency); }
    }
  }

  ghost predicate CoversAll(accounts: seq<string>, events: seq<Event>) {
    forall e | e in events && Handle(e).Post? :: Covers(accounts, Handle(e).movements)
  }

  lemma {:induction false} RebuildIsBalanced(events: seq<Event>, accounts: seq<string>, currency: string)
    requires Distinct(accounts) && CoversAll(accounts, events)
    ensures Total(Rebuild(events), accounts, currency) == 0
  {
    if events == [] {
      EmptyTotal(accounts, currency);
    } else {
      var before, e := events[..|events| - 1], events[|events| - 1];
      RebuildIsBalanced(before, accounts, currency);
      if Handle(e).Post? { PostKeepsTotal(Rebuild(before), Handle(e).movements, accounts, currency); }
    }
  }

  lemma {:induction false} EmptyTotal(accounts: seq<string>, currency: string)
    ensures Total(map[], accounts, currency) == 0
  {
    if accounts != [] { EmptyTotal(accounts[..|accounts| - 1], currency); }
  }

  lemma {:induction false} TotalOfEqual(b: Balances, b1: Balances, accounts: seq<string>, currency: string)
    requires forall account | account in accounts :: Balance(b, account, currency) == Balance(b1, account, currency)
    ensures Total(b, accounts, currency) == Total(b1, accounts, currency)
  {
    if accounts != [] { TotalOfEqual(b, b1, accounts[..|accounts| - 1], currency); }
  }

  /** Double entry. In every run the balances of all accounts touched so far sum to zero in every
      currency. */
  lemma {:induction false} BooksBalance(c: Config, actions: seq<Action>, accounts: seq<string>, currency: string)
    requires Allowed(c, actions)
    requires Distinct(accounts) && CoversAll(accounts, Run(c, actions).booked)
    ensures Total(Run(c, actions).balances, accounts, currency) == 0
  {
    RunKeeps(c, actions);
    var s := Run(c, actions);
    forall account | account in accounts
      ensures Balance(s.balances, account, currency) == Balance(Rebuild(s.booked), account, currency)
    {
      RebuildAdds(s.booked, account, currency);
    }
    TotalOfEqual(s.balances, Rebuild(s.booked), accounts, currency);
    RebuildIsBalanced(s.booked, accounts, currency);
  }
}
