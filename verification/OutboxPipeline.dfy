/** The outbox code itself, statement by statement: each method performs one action of Outbox (a tick
    performs several) where that action is enabled, so what Outbox proves of every run holds of the
    tables kept here. */
module OutboxPipeline {
  import opened Ledger
  import opened Outbox

  /** How one call to `Publish` goes: the message reached the topic, the call reported success, the
      status update reached the table. */
  datatype Sending = Sending(sent: bool, ok: bool, updated: bool)

  /** The publisher's actions for its first `n` rows. */
  function Publishes(sendings: nat -> Sending, n: nat): seq<Action> {
    if n == 0 then []
    else
      var last := sendings(n - 1);
      Publishes(sendings, n - 1) + [Publish(last.sent, last.ok, last.updated)]
  }

  function ApplyAll(c: Config, s: State, actions: seq<Action>): State {
    if actions == [] then s else Apply(c, ApplyAll(c, s, actions[..|actions| - 1]), actions[|actions| - 1])
  }

  lemma ApplySnoc(c: Config, s: State, actions: seq<Action>, a: Action)
    ensures ApplyAll(c, s, actions + [a]) == Apply(c, ApplyAll(c, s, actions), a)
  {
    assert (actions + [a])[..|actions|] == actions;
  }

  /** The result of `Handler.Handle`: whether the booking call reported success. */
  predicate Handled(e: Event, luck: Luck) {
    match Handle(e)
    case Ignored => true
    case Malformed => false
    case Post(_) => luck.books && luck.answers
  }

  /** The result of `processOne`. */
  predicate Processes(s: State, m: Message, luck: Luck) {
    m.Good? ==> luck.opens && luck.commits && (m.evt.id in s.processed || Handled(m.evt, luck))
  }

  class Pipeline {
    const config: Config
    var outbox: map<string, Row>
    var topic: seq<Message>
    var acked: set<nat>
    var processed: set<string>
    var keys: set<string>
    var balances: Balances
    var batch: seq<Row>
    ghost var committed: map<string, Event>
    ghost var order: seq<Event>
    ghost var booked: seq<Event>
    ghost var published: set<string>
    ghost var deleted: set<string>
    ghost var failures: map<string, nat>

    ghost function Now(): State
      reads this
    {
      State(outbox, topic, acked, processed, keys, balances, batch,
            committed, order, booked, published, deleted, failures)
    }

    constructor (config: Config)
      ensures Now() == EMPTY && this.config == config
    {
      this.config := config;
      outbox, topic, acked, processed, keys, balances, batch := map[], [], {}, {}, {}, map[], [];
      committed, order, booked, published, deleted, failures := map[], [], [], {}, {}, map[];
    }

    /** `Append` inside a business transaction that then commits or rolls back. The event id is the
        primary key of the table, so the insertion of an id that has a row fails, and with it the
        transaction. */
    method Append(e: Event, commits: bool) returns (ok: bool)
      modifies this
      ensures ok == (Valid(e) && e.id !in old(outbox) && commits)
      ensures !ok ==> Now() == old(Now())
      ensures ok ==> outbox == old(outbox)[e.id := Row(e, Pending, 0)] && order == old(order) + [e]
      ensures ok ==> topic == old(topic) && acked == old(acked) && batch == old(batch) && balances == old(balances)
      ensures Now() == if Valid(e) then Apply(config, old(Now()), Action.Append(e, commits)) else old(Now())
    {
      if e.id == "" || e.kind == "" || e.body == "" {
        return false;
      }
      if e.id in outbox {
        return false;
      }
      if commits {
        outbox := outbox[e.id := Row(e, Pending, 0)];
        committed, order, failures := committed[e.id := e], order + [e], failures[e.id := 0];
      }
      return commits;
    }

    /** The query of `tick`: at most `limit` pending rows. */
    method FetchPending(limit: nat) returns (rows: seq<Row>)
      requires forall id | id in outbox :: outbox[id].evt.id == id
      ensures BatchInv(rows, outbox) && |rows| <= limit
      ensures |rows| < limit ==> forall id | id in outbox && outbox[id].status == Pending :: outbox[id] in rows
    {
      rows := [];
      var rest := outbox.Keys;
      while rest != {} && |rows| < limit
        invariant rest <= outbox.Keys && |rows| <= limit && BatchInv(rows, outbox)
        invariant forall i | 0 <= i < |rows| :: rows[i].evt.id !in rest
        invariant forall id | id in outbox && id !in rest && outbox[id].status == Pending :: outbox[id] in rows
        decreases |rest|
      {
        var id :| id in rest;
        rest := rest - {id};
        if outbox[id].status == Pending {
          rows := rows + [outbox[id]];
        }
      }
    }

    /** One UPDATE by event id, which may be lost. */
    method UpdateRow(id: string, update: Row -> Row, arrives: bool)
      modifies this`outbox
      ensures outbox == if arrives && id in old(outbox) then old(outbox)[id := update(old(outbox)[id])] else old(outbox)
    {
      if arrives && id in outbox { outbox := outbox[id := update(outbox[id])]; }
    }

    /** The call to `Publish`. */
    method SendNext(s: Sending)
      requires batch != []
      modifies this`topic, this`batch, this`published, this`failures
      ensures Now() == Send(old(Now()), s.sent, s.ok)
    {
      var e := batch[0].evt;
      batch := batch[1..];
      if s.sent || s.ok { topic := topic + [Good(e)]; }
      if s.ok {
        published := published + {e.id};
      } else {
        failures := failures[e.id := if e.id in failures then failures[e.id] + 1 else 1];
      }
    }

    /** `publishOne` for the next row of the batch. If the update arrives, a success makes the row
        published; a failure counts one more try than the publisher has read and gives the row up exactly
        in the mode that does so, at the limit. */
    method PublishOne(s: Sending)
      requires batch != []
      modifies this`topic, this`batch, this`outbox, this`published, this`failures
      ensures topic == old(topic) + if s.sent || s.ok then [Good(old(batch)[0].evt)] else []
      ensures outbox.Keys == old(outbox).Keys
      ensures var id := old(batch)[0].evt.id;
              && (forall other | other in outbox && (other != id || !s.updated) :: outbox[other] == old(outbox)[other])
              && (s.updated && id in outbox ==>
                    var tries := old(batch)[0].retries + 1;
                    && outbox[id].evt == old(outbox)[id].evt
                    && outbox[id].retries == (if s.ok then old(outbox)[id].retries else tries)
                    && outbox[id].status == if s.ok then Published
                                            else if config.failedDlq && tries >= config.maxRetries then Failed
                                            else old(outbox)[id].status)
      ensures Now() == Apply(config, old(Now()), Publish(s.sent, s.ok, s.updated)) && batch == old(batch)[1..]
    {
      var row := batch[0];
      var id := row.evt.id;
      SendNext(s);
      if s.ok {
        UpdateRow(id, (r: Row) => r.(status := Published), s.updated);
        return;
      }
      var retries := row.retries + 1;
      if config.failedDlq && retries >= config.maxRetries {
        UpdateRow(id, (r: Row) => r.(status := Failed, retries := retries), s.updated);
        return;
      }
      UpdateRow(id, (r: Row) => r.(retries := retries), s.updated);
    }

    /** `tick`: fetch, then publish row by row. */
    method Tick(limit: nat, fetched: bool, sendings: nat -> Sending) returns (ok: bool, ghost rows: seq<Row>)
      requires Inv(config, Now()) && batch == []
      modifies this
      ensures batch == [] && ok == fetched
      ensures ok ==>
                && Enabled(old(Now()), Fetch(rows))
                && Now() == ApplyAll(config, Apply(config, old(Now()), Fetch(rows)), Publishes(sendings, |rows|))
      ensures !ok ==> Now() == old(Now())
      ensures ok && |rows| < limit ==>
                forall id | id in old(outbox) && old(outbox)[id].status == Pending :: old(outbox)[id] in rows
    {
      rows := [];
      if !fetched { return false, rows; }
      var events := FetchPending(limit);
      rows := events;
      batch := events;
      var i := 0;
      while batch != []
        invariant i + |batch| == |rows|
        invariant Now() == ApplyAll(config, old(Now()).(batch := rows), Publishes(sendings, i))
        decreases |batch|
      {
        ApplySnoc(config, old(Now()).(batch := rows),
                   Publishes(sendings, i), Publish(sendings(i).sent, sendings(i).ok, sendings(i).updated));
        PublishOne(sendings(i));
        i := i + 1;
      }
      return true, rows;
    }

    /** `ReplayFailedDLQ`. */
    method ReplayFailed(ids: set<string>) returns (n: nat)
      modifies this
      ensures outbox.Keys == old(outbox).Keys && forall id | id in outbox ::
                outbox[id] == if id in ids && old(outbox)[id].status == Failed then Row(old(outbox)[id].evt, Pending, 0)
                              else old(outbox)[id]
      ensures Now() == Apply(config, old(Now()), Replay(ids))
      ensures n == |set id | id in ids && id in old(outbox) && old(outbox)[id].status == Failed|
    {
      var hit := set id | id in ids && id in outbox && outbox[id].status == Failed;
      outbox := map id | id in outbox :: if id in hit then outbox[id].(status := Pending, retries := 0) else outbox[id];
      failures := map id | id in failures :: if id in hit then 0 else failures[id];
      ghost var after := ReplayRows(old(Now()), ids);
      assert outbox == after.outbox && failures == after.failures;
      return |hit|;
    }

    /** `CleanupPublished`, given the rows that are old enough. */
    method CleanupPublished(aged: set<string>) returns (n: nat)
      modifies this
      ensures forall id :: id in outbox <==> id in old(outbox) && !(id in aged && old(outbox)[id].status == Published)
      ensures forall id | id in outbox :: outbox[id] == old(outbox)[id]
      ensures Now() == Apply(config, old(Now()), Cleanup(aged))
      ensures n == |set id | id in aged && id in old(outbox) && old(outbox)[id].status == Published|
    {
      var hit := set id | id in aged && id in outbox && outbox[id].status == Published;
      outbox, deleted := outbox - hit, deleted + hit;
      return |hit|;
    }

    /** The booking core behind `PostMovements`. */
    method PostMovements(e: Event, movements: seq<Movement>)
      modifies this`keys, this`balances, this`booked
      ensures Now() == Book(old(Now()), e, movements)
    {
      if BookingKey(e) in keys { return; }
      keys, booked := keys + {BookingKey(e)}, booked + [e];
      var i := 0;
      while i < |movements|
        invariant keys == old(keys) + {BookingKey(e)} && booked == old(booked) + [e]
        invariant i <= |movements| && balances == PostAll(old(balances), movements[..i])
      {
        var m := movements[i];
        balances := Add(balances, m.debit, m.currency, m.amount);
        balances := Add(balances, m.credit, m.currency, -m.amount);
        assert movements[..i + 1][..i] == movements[..i];
        i := i + 1;
      }
      assert movements[..i] == movements;
    }

    /** `Handler.Handle`. */
    method HandleEvent(e: Event, luck: Luck) returns (ok: bool)
      modifies this`keys, this`balances, this`booked
      ensures ok == Handled(e, luck)
      ensures Now() == if Handle(e).Post? && luck.books then Book(old(Now()), e, Handle(e).movements) else old(Now())
    {
      match Handle(e)
      case Ignored => return true;
      case Malformed => return false;
      case Post(movements) =>
        if luck.books { PostMovements(e, movements); }
        return luck.books && luck.answers;
    }

    /** `processOne`. */
    method ProcessOne(m: Message, luck: Luck) returns (ok: bool)
      modifies this`keys, this`balances, this`booked, this`processed
      ensures ok == Processes(old(Now()), m, luck)
      ensures m.Bad? || !luck.opens || m.evt.id in old(processed) ==> Now() == old(Now())
      ensures m.Good? && luck.opens && m.evt.id !in old(processed) ==>
                var e := m.evt;
                var s := if Handle(e).Post? && luck.books then Book(old(Now()), e, Handle(e).movements) else old(Now());
                Now() == if ok then s.(processed := s.processed + {e.id}) else s
    {
      if m.Bad? { return true; }
      if !luck.opens { return false; }
      if m.evt.id in processed { return luck.commits; }
      ok := HandleEvent(m.evt, luck);
      if !ok || !luck.commits { return false; }
      processed := processed + {m.evt.id};
    }

    /** One round of `Consumer.Loop`: read, process, acknowledge on success only. */
    method Consume(k: nat, luck: Luck)
      requires k < |topic|
      modifies this
      ensures Now() == Apply(config, old(Now()), Deliver(k, luck))
      ensures acked == old(acked) + if Processes(old(Now()), old(topic)[k], luck) && luck.acks then {k} else {}
      ensures topic == old(topic) && outbox == old(outbox) && old(processed) <= processed
      ensures topic[k].Good? && topic[k].evt.id !in old(processed) && Processes(old(Now()), topic[k], luck) ==>
                processed == old(processed) + {topic[k].evt.id}
    {
      var ok := ProcessOne(topic[k], luck);
      if ok && luck.acks { acked := acked + {k}; }
    }
  }
}
