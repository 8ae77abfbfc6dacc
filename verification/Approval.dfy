/** The maker-checker machine of packages/payment-util/approval (types.go, store.go, coordinator.go),
    over the store as a value. Each operation is one atomic step. */
module Approval {
  import opened Prelude

  datatype State = Pending | Reviewing | Approved | Rejected | Executed | Expired | Cancelled
  datatype Decision = Approve | Reject
  datatype Vote = Vote(reviewer: string, decision: Decision, note: string, at: int)

  /** Times are integers, 0 the zero time. */
  datatype Action = Action(id: string, kind: string, resource: string, requester: string, requestedAt: int,
                           required: int,
                           state: State, votes: seq<Vote>, expiresAt: int,
                            executedAt: int, executedBy: string, cancelledAt: int)

  datatype Config = Config(required: int, expireAfter: int, cancelWindow: int)
  datatype Error = NotFound | DuplicateId | AlreadyDecided | SelfApproval | DuplicateReviewer | InvalidState

  /** `newId` is the identifier generated if the request has none. */
  datatype Op =
    | Request(action: Action, newId: string, now: int)
    | Review(id: string, reviewer: string, note: string, decision: Decision, now: int)
    | MarkExecuted(id: string, executor: string, now: int)
    | Cancel(id: string, requester: string, now: int)

  type Store = map<string, Action>

  function Settings(c: Config): Config {
    if c.required == 0 then Config(2, 7 * 24 * 3600, 30 * 60) else c
  }

  ghost predicate HasReviewer(votes: seq<Vote>, reviewer: string) {
    exists v :: v in votes && v.reviewer == reviewer
  }

  function ApproveCount(votes: seq<Vote>): nat {
    if votes == [] then 0
    else ApproveCount(votes[..|votes| - 1]) + if votes[|votes| - 1].decision == Approve then 1 else 0
  }

  function Submitted(c: Config, a: Action, newId: string, now: int): Action {
    a.(id := if a.id == "" then newId else a.id, requestedAt := now, state := Pending,
       required := if a.required == 0 then c.required else a.required,
       expiresAt := if a.expiresAt == 0 then now + c.expireAfter else a.expiresAt)
  }

  function Voted(a: Action, v: Vote): Action {
    var votes := a.votes + [v];
    a.(votes := votes,
       state := if v.decision == Reject then Rejected
                else if ApproveCount(votes) >= a.required then Approved else Reviewing)
  }

  /** What an operation makes of the action it names, or the error it returns; an action past its
      date is marked expired although the call fails. */
  ghost function Outcome(c: Config, a: Action, op: Op): (Action, Option<Error>) {
    match op
    case Request(_, _, _) => (a, Some(DuplicateId))
    case Review(_, reviewer, note, decision, now) =>
      if now > a.expiresAt && a.state == Pending then (a.(state := Expired), Some(InvalidState))
      else if a.state != Pending && a.state != Reviewing then (a, Some(AlreadyDecided))
      else if reviewer == a.requester then (a, Some(SelfApproval))
      else if HasReviewer(a.votes, reviewer) then (a, Some(DuplicateReviewer))
      else (Voted(a, Vote(reviewer, decision, note, now)), None)
    case MarkExecuted(_, executor, now) =>
      if a.state != Approved then (a, Some(InvalidState))
      else (a.(state := Executed, executedAt := now, executedBy := executor), None)
    case Cancel(_, requester, now) =>
      if a.requester != requester then (a, Some(SelfApproval))
      else if a.state == Pending || a.state == Reviewing
              || (a.state == Approved && a.votes != [] && now - a.votes[|a.votes| - 1].at <= c.cancelWindow)
      then (a.(state := Cancelled, cancelledAt := now), None)
      else (a, Some(InvalidState))
  }

  function Named(op: Op): string {
    if op.Request? then (if op.action.id == "" then op.newId else op.action.id) else op.id
  }

  predicate Complete(a: Action) { a.kind != "" && a.resource != "" && a.requester != "" }

  ghost function Apply(c: Config, store: Store, op: Op): (Store, Option<Error>) {
    var id := Named(op);
    if op.Request? then
      if !Complete(op.action) then (store, Some(InvalidState))
      else if id in store then (store, Some(DuplicateId))
      else (store[id := Submitted(c, op.action, op.newId, op.now)], None)
    else if id !in store then (store, Some(NotFound))
    else (store[id := Outcome(c, store[id], op).0], Outcome(c, store[id], op).1)
  }

  ghost function Run(c: Config, store: Store, ops: seq<Op>): Store {
    if ops == [] then store else Apply(c, Run(c, store, ops[..|ops| - 1]), ops[|ops| - 1]).0
  }

  // ---------------------------------------------------------------- what an approval means

  ghost predicate Distinct(votes: seq<Vote>) {
    forall i, j | 0 <= i < j < |votes| :: votes[i].reviewer != votes[j].reviewer
  }

  /** Nobody voted twice, the requester did not vote, and nobody voted against. */
  ghost predicate Honest(requester: string, votes: seq<Vote>) {
    Distinct(votes) && (forall v | v in votes :: v.reviewer != requester) &&
    forall v | v in votes :: v.decision == Approve
  }

  ghost function Approvers(votes: seq<Vote>): set<string> {
    set v | v in votes && v.decision == Approve :: v.reviewer
  }

  /** Enough different people, none of them the requester, have approved and nobody has rejected. */
  ghost predicate Genuine(a: Action) {
    && |Approvers(a.votes)| >= a.required && a.requester !in Approvers(a.votes)
    && forall v | v in a.votes :: v.decision == Approve
  }

  lemma {:induction false} ApproversSnoc(init: seq<Vote>, last: Vote)
    ensures Approvers(init + [last]) == Approvers(init) + if last.decision == Approve then {last.reviewer} else {}
  {
    assert forall v :: v in init + [last] <==> v in init || v == last;
  }

  lemma {:induction false} CountIsPeople(votes: seq<Vote>)
    requires Distinct(votes)
    ensures ApproveCount(votes) == |Approvers(votes)|
  {
    if votes != [] {
      var init, last := votes[..|votes| - 1], votes[|votes| - 1];
      assert votes == init + [last];
      CountIsPeople(init);
      ApproversSnoc(init, last);
      assert last.reviewer !in Approvers(init);
    }
  }

  ghost predicate ActionInv(a: Action) {
    && (a.state != Rejected && a.state != Expired && a.state != Cancelled ==> Honest(a.requester, a.votes))
    && Distinct(a.votes) && (forall v | v in a.votes :: v.reviewer != a.requester)
    && (a.state == Approved || a.state == Executed ==> a.votes != [] && ApproveCount(a.votes) >= a.required)
    && (a.state == Reviewing ==> a.votes != [] && ApproveCount(a.votes) < a.required)
  }

  ghost predicate StoreInv(store: Store) {
    forall id | id in store :: store[id].id == id && ActionInv(store[id])
  }

  lemma VoteKeeps(a: Action, v: Vote)
    requires ActionInv(a) && (a.state == Pending || a.state == Reviewing)
    requires v.reviewer != a.requester && !HasReviewer(a.votes, v.reviewer)
    ensures ActionInv(Voted(a, v))
  {
    assert (a.votes + [v])[..|a.votes|] == a.votes;
    forall i | 0 <= i < |a.votes| ensures a.votes[i].reviewer != v.reviewer {
      assert a.votes[i] in a.votes;
    }
  }

  lemma StepKeeps(c: Config, store: Store, op: Op)
    requires StoreInv(store) && (op.Request? ==> Honest(op.action.requester, op.action.votes))
    ensures StoreInv(Apply(c, store, op).0)
  {
    if op.Review? && op.id in store {
      var a := store[op.id];
      if Outcome(c, a, op).1.None? { VoteKeeps(a, Vote(op.reviewer, op.decision, op.note, op.now)); }
    }
  }

  ghost predicate HonestRequests(ops: seq<Op>) {
    forall op | op in ops && op.Request? :: Honest(op.action.requester, op.action.votes)
  }

  lemma {:induction false} RunKeeps(c: Config, ops: seq<Op>)
    requires HonestRequests(ops)
    ensures StoreInv(Run(c, map[], ops))
  {
    if ops != [] {
      assert ops[|ops| - 1] in ops && forall op | op in ops[..|ops| - 1] :: op in ops;
      RunKeeps(c, ops[..|ops| - 1]);
      StepKeeps(c, Run(c, map[], ops[..|ops| - 1]), ops[|ops| - 1]);
    }
  }

  // ---------------------------------------------------------------- the theorems

  /** In every reachable store an approved or executed action was approved by enough different people
      other than the requester and rejected by none, and the vote that decides how long it may be
      cancelled exists. Requests must not bring dishonest votes along. */
  lemma {:induction false} ApprovalsAreGenuine(c: Config, ops: seq<Op>, id: string)
    requires HonestRequests(ops)
    ensures var store := Run(c, map[], ops);
            id in store && (store[id].state == Approved || store[id].state == Executed) ==>
              Genuine(store[id]) && store[id].votes != []
  {
    RunKeeps(c, ops);
    var store := Run(c, map[], ops);
    if id in store { CountIsPeople(store[id].votes); }
  }

  /** `Request` keeps the votes it is given. If one more vote then approves the action, the approval
      is genuine exactly if those votes add up to one without it being counted twice or given by the
      requester or against. */
  lemma DecidingVoteCounts(a: Action, v: Vote)
    requires v.decision == Approve && v.reviewer != a.requester
    requires !HasReviewer(a.votes, v.reviewer) && Voted(a, v).state == Approved
    ensures Genuine(Voted(a, v)) <==>
            && |Approvers(a.votes)| + 1 >= a.required && a.requester !in Approvers(a.votes)
            && forall x | x in a.votes :: x.decision == Approve
  {
    var votes := a.votes + [v];
    assert Approvers(votes) == Approvers(a.votes) + {v.reviewer};
    assert v.reviewer !in Approvers(a.votes);
    if Genuine(Voted(a, v)) {
      forall x | x in a.votes ensures x.decision == Approve { assert x in votes; }
    }
  }

  /** What the operations rely on, whatever votes a request brings: actions are stored under their
      own ids, and an approved one has a last vote. */
  predicate Addressable(store: Store) {
    forall id | id in store :: store[id].id == id && (store[id].state == Approved ==> store[id].votes != [])
  }

  lemma {:induction false} AlwaysAddressable(c: Config, ops: seq<Op>)
    ensures Addressable(Run(c, map[], ops))
  {
    if ops != [] { AlwaysAddressable(c, ops[..|ops| - 1]); }
  }

  predicate Final(s: State) { s == Rejected || s == Executed || s == Expired || s == Cancelled }

  /** What no operation changes: an action never disappears, votes are only added at the end, the
      request itself stays, decided actions stay as they are, and approval leads to execution or
      cancellation only. */
  ghost predicate Follows(a: Action, b: Action) {
    && a.votes <= b.votes
    && (b.id, b.kind, b.resource, b.requester, b.requestedAt) == (a.id, a.kind, a.resource, a.requester, a.requestedAt)
    && b.required == a.required && b.expiresAt == a.expiresAt
    && (Final(a.state) ==> b == a)
    && (a.state == Approved ==>
          b.votes == a.votes && (b.state == Approved || b.state == Executed || b.state == Cancelled))
    && (a.state == Reviewing ==> b.state != Pending && b.state != Expired)
  }

  lemma FollowsTwice(a: Action, b: Action, d: Action)
    requires Follows(a, b) && Follows(b, d)
    ensures Follows(a, d)
  {
  }

  lemma StepFollows(c: Config, store: Store, op: Op, id: string)
    requires id in store
    ensures id in Apply(c, store, op).0 && Follows(store[id], Apply(c, store, op).0[id])
  {
  }

  lemma {:induction false} HistoryIsAppendOnly(c: Config, store: Store, ops: seq<Op>, id: string)
    requires id in store
    ensures id in Run(c, store, ops) && Follows(store[id], Run(c, store, ops)[id])
  {
    if ops != [] {
      var before := Run(c, store, ops[..|ops| - 1]);
      HistoryIsAppendOnly(c, store, ops[..|ops| - 1], id);
      StepFollows(c, before, ops[|ops| - 1], id);
      FollowsTwice(store[id], before[id], Apply(c, before, ops[|ops| - 1]).0[id]);
    }
  }

  /** The date is looked at only while there is no vote: a vote by somebody entitled to it is accepted
      past the date exactly if there is one already. */
  lemma ExpiryIsCheckedOnlyWhilePending(c: Config, a: Action, id: string, reviewer: string, note: string,
                                        decision: Decision, now: int)
    requires a.state == Pending || a.state == Reviewing
    requires reviewer != a.requester && !HasReviewer(a.votes, reviewer) && now > a.expiresAt
    ensures Outcome(c, a, Review(id, reviewer, note, decision, now)).1.None? <==> a.state == Reviewing
  {
  }

  lemma Accepted(c: Config, store: Store, id: string, reviewer: string, now: int)
    requires id in store && (store[id].state == Reviewing || (store[id].state == Pending && now <= store[id].expiresAt))
    requires reviewer != store[id].requester && !HasReviewer(store[id].votes, reviewer)
    ensures Apply(c, store, Review(id, reviewer, "", Approve, now)).0
            == store[id := Voted(store[id], Vote(reviewer, Approve, "", now))]
  {
  }

  lemma {:induction false} TwoApprovals(v: Vote, v1: Vote)
    requires v.decision == Approve && v1.decision == Approve
    ensures [] + [v] == [v] && [v] + [v1] == [v, v1]
    ensures ApproveCount([v]) == 1 && ApproveCount([v, v1]) == 2
  {
    assert [v][..0] == [] && [v, v1][..1] == [v];
  }

  lemma {:induction false} ThreeSteps(c: Config, x: Op, y: Op, z: Op)
    ensures Run(c, map[], [x, y, z]) == Apply(c, Apply(c, Apply(c, map[], x).0, y).0, z).0
  {
    assert [x, y, z][..2] == [x, y] && [x, y][..1] == [x] && [x][..0] == [];
    assert Run(c, map[], [x]) == Apply(c, map[], x).0;
    assert Run(c, map[], [x, y]) == Apply(c, Apply(c, map[], x).0, y).0;
  }

  /** An action that expires at time 10 is approved at time 99. */
  lemma {:induction false} ApprovedAfterItsDate()
    ensures var c := Config(2, 100, 30);
            var a := Action("a", "payout", "po_1", "maker", 0, 2, Pending, [], 10, 0, "", 0);
            var ops := [Request(a, "", 1), Review("a", "ann", "", Approve, 5), Review("a", "bob", "", Approve, 99)];
            var store := Run(c, map[], ops);
            "a" in store && store["a"].state == Approved && store["a"].expiresAt == 10
  {
    var c := Config(2, 100, 30);
    var a := Action("a", "payout", "po_1", "maker", 0, 2, Pending, [], 10, 0, "", 0);
    var x, y, z := Request(a, "", 1), Review("a", "ann", "", Approve, 5), Review("a", "bob", "", Approve, 99);
    var v, v1 := Vote("ann", Approve, "", 5), Vote("bob", Approve, "", 99);
    TwoApprovals(v, v1);
    var requested := map["a" := a.(requestedAt := 1)];
    assert Apply(c, map[], x).0 == requested;
    Accepted(c, requested, "a", "ann", 5);
    Accepted(c, Apply(c, requested, y).0, "a", "bob", 99);
    ThreeSteps(c, x, y, z);
  }
}
