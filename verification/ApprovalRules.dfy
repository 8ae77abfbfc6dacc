/** Where the terms of an action come from, and who may take it back
    (packages/payment-util/approval/coordinator.go:17-85 and 195-235). */
module ApprovalRules {
  import opened Prelude
  import opened Approval

  /** The request that `a` goes back to: what it left open is two approvals within seven days, unless
      the coordinator is configured otherwise. */
  predicate RequestedBy(c: Config, a: Action, op: Op) {
    && op.Request? && a.id == (if op.action.id != "" then op.action.id else op.newId) && a.requestedAt == op.now
    && (a.kind, a.resource, a.requester) == (op.action.kind, op.action.resource, op.action.requester)
    && a.kind != "" && a.resource != "" && a.requester != ""
    && a.required == (if op.action.required != 0 then op.action.required else if c.required != 0 then c.required else 2)
    && a.expiresAt == (if op.action.expiresAt != 0 then op.action.expiresAt
                       else op.now + if c.required != 0 then c.expireAfter else 604800)
    && op.action.votes <= a.votes
  }

  /** How long after the deciding vote an action may still be taken back: half an hour, unless the
      coordinator is configured otherwise. */
  function Window(c: Config): int { if c.required != 0 then c.cancelWindow else 1800 }

  /** The requester took it back: before it was approved (with the votes it came with, or with too few)
      or within the window. */
  predicate TakenBackBy(c: Config, a: Action, given: seq<Vote>, op: Op) {
    && op.Cancel? && op.id == a.id && op.requester == a.requester && op.now == a.cancelledAt
    && (a.votes == given || ApproveCount(a.votes) < a.required
        || (a.votes != [] && op.now <= a.votes[|a.votes| - 1].at + Window(c)))
  }

  ghost predicate Explained(c: Config, ops: seq<Op>, a: Action, request: Op) {
    && RequestedBy(c, a, request)
    && (a.state == Pending ==> a.votes == request.action.votes)
    && (a.state == Reviewing ==> ApproveCount(a.votes) < a.required)
    && (a.state == Cancelled ==> exists op :: op in ops && TakenBackBy(c, a, request.action.votes, op))
  }

  lemma StaysExplained(c: Config, ops: seq<Op>, more: seq<Op>, a: Action, request: Op)
    requires Explained(c, ops, a, request)
    ensures Explained(c, ops + more, a, request)
  {
    if a.state == Cancelled {
      var op :| op in ops && TakenBackBy(c, a, request.action.votes, op);
      assert op in ops + more;
    }
  }

  lemma OutcomeExplained(c: Config, ops: seq<Op>, a: Action, request: Op, op: Op)
    requires Explained(c, ops, a, request) && !op.Request? && op.id == a.id
    ensures Explained(c, ops + [op], Outcome(Settings(c), a, op).0, request)
  {
    StaysExplained(c, ops, [op], a, request);
    var b := Outcome(Settings(c), a, op).0;
    assert op in ops + [op];
    if op.Cancel? && b != a { assert TakenBackBy(c, b, request.action.votes, op); }
  }

  lemma Appears(c: Config, store: Store, op: Op, ops: seq<Op>, id: string)
    requires id !in store && id in Apply(Settings(c), store, op).0
    ensures var a := Apply(Settings(c), store, op).0[id]; a.id == id && a.required != 0 && Explained(c, ops, a, op)
  {
  }

  lemma StepOnStored(c: Config, store: Store, op: Op, id: string)
    requires id in store && store[id].id == id && store[id].required != 0
    ensures var a := Apply(Settings(c), store, op).0[id];
            a.id == id && a.required != 0
            && a == if op.Request? || op.id != id then store[id] else Outcome(Settings(c), store[id], op).0
  {
  }

  /** Every stored action goes back to a request for it, on the terms of that request or the defaults,
      and if it is cancelled its requester took it back in time. */
  lemma {:induction false} EveryActionIsExplained(c: Config, ops: seq<Op>, id: string) returns (request: Op)
    requires id in Run(Settings(c), map[], ops)
    ensures request in ops && Explained(c, ops, Run(Settings(c), map[], ops)[id], request)
    ensures Run(Settings(c), map[], ops)[id].id == id && Run(Settings(c), map[], ops)[id].required != 0
  {
    var before, op := ops[..|ops| - 1], ops[|ops| - 1];
    assert ops == before + [op];
    var store := Run(Settings(c), map[], before);
    if id !in store {
      request := op;
      Appears(c, store, op, ops, id);
    } else {
      request := EveryActionIsExplained(c, before, id);
      StepOnStored(c, store, op, id);
      if !op.Request? && op.id == id {
        OutcomeExplained(c, before, store[id], request, op);
      } else {
        StaysExplained(c, before, [op], store[id], request);
      }
    }
  }

  /** Who may take an action back, and until when. */
  lemma CancellableIff(c: Config, store: Store, id: string, requester: string, now: int)
    requires Addressable(store)
    ensures Apply(Settings(c), store, Cancel(id, requester, now)).1.None? <==>
            && id in store && requester == store[id].requester
            && (store[id].state == Pending || store[id].state == Reviewing
                || (store[id].state == Approved && now <= store[id].votes[|store[id].votes| - 1].at + Window(c)))
  {
  }

  /** A vote counts exactly if the action is open, or pending and not yet past its date, and the voter
      is neither its requester nor has voted on it before. */
  lemma VotableIff(c: Config, store: Store, id: string, reviewer: string, note: string, decision: Decision, now: int)
    requires Addressable(store)
    ensures Apply(c, store, Review(id, reviewer, note, decision, now)).1.None? <==>
            && id in store
            && (store[id].state == Reviewing || (store[id].state == Pending && now <= store[id].expiresAt))
            && reviewer != store[id].requester && (forall v | v in store[id].votes :: v.reviewer != reviewer)
  {
  }

  /** Exactly the approved actions can be executed, and once only. */
  lemma {:induction false} ExecutedOnce(c: Config, store: Store, id: string, executor: string, now: int, ops: seq<Op>,
                                        again: string, later: int)
    requires Addressable(store)
    ensures var (after, err) := Apply(c, store, MarkExecuted(id, executor, now));
            && (err.None? <==> id in store && store[id].state == Approved)
            && (err.None? ==>
                  && after == store[id := store[id].(state := Executed, executedAt := now, executedBy := executor)]
                  && Apply(c, Run(c, after, ops), MarkExecuted(id, again, later)).1.Some?)
            && (err.Some? ==> after == store)
  {
    var (after, err) := Apply(c, store, MarkExecuted(id, executor, now));
    if err.None? {
      HistoryIsAppendOnly(c, after, ops, id);
    } else if id in store {
      assert store[id := store[id]] == store;
    }
  }
}
