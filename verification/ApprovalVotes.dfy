/** What becomes of votes that a request brings along (coordinator.go:65-95): `Request` keeps them, and
    `Review` counts them with those it adds. */
module ApprovalVotes {
  import opened Approval

  ghost function Voters(votes: seq<Vote>): set<string> {
    set v | v in votes :: v.reviewer
  }

  lemma {:induction false} CountAdds(a: seq<Vote>, b: seq<Vote>)
    ensures ApproveCount(a + b) == ApproveCount(a) + ApproveCount(b)
  {
    if b == [] {
      assert a + b == a;
    } else {
      CountAdds(a, b[..|b| - 1]);
      assert (a + b)[..|a + b| - 1] == a + b[..|b| - 1];
    }
  }

  lemma {:induction false} CountsAtLeastPeople(votes: seq<Vote>)
    ensures |Approvers(votes)| <= ApproveCount(votes)
  {
    if votes == [] {
      assert Approvers(votes) == {};
    } else {
      var init, last := votes[..|votes| - 1], votes[|votes| - 1];
      assert votes == init + [last];
      CountsAtLeastPeople(init);
      ApproversSnoc(init, last);
    }
  }

  lemma {:induction false} AllApproveCount(votes: seq<Vote>)
    requires AllApprove(votes)
    ensures ApproveCount(votes) == |votes|
  {
    if votes != [] {
      var init, last := votes[..|votes| - 1], votes[|votes| - 1];
      assert last in votes && forall v | v in init :: v in votes;
      AllApproveCount(init);
    }
  }

  predicate Open(a: Action) { a.state == Pending || a.state == Reviewing }
  predicate Passed(a: Action) { a.state == Approved || a.state == Executed }

  /** The votes added to those given: by different people, none of them the requester or among the
      given voters; as long as the action is open or passed they approve. */
  ghost predicate Added(given: seq<Vote>, a: Action, more: seq<Vote>) {
    && a.votes == given + more && Distinct(more) && Newcomers(given, a.requester, more)
    && (Open(a) || Passed(a) ==> AllApprove(more)) && Tally(a, ApproveCount(given), |more|)
  }

  ghost predicate Newcomers(given: seq<Vote>, requester: string, more: seq<Vote>) {
    forall v | v in more :: v.reviewer != requester && v.reviewer !in Voters(given)
  }

  predicate AllApprove(votes: seq<Vote>) {
    forall v | v in votes :: v.decision == Approve
  }

  /** With `count` approvals given and n votes added: the last of them decided. */
  predicate Tally(a: Action, count: nat, n: nat) {
    && (a.state == Pending ==> n == 0)
    && (a.state == Reviewing ==> n > 0 && count + n < a.required)
    && (Passed(a) ==> n > 0 && count + n >= a.required && (n == 1 || count + n - 1 < a.required))
  }

  lemma {:induction false} NewVoter(given: seq<Vote>, a: Action, more: seq<Vote>, v: Vote)
    requires a.votes == given + more && Distinct(more) && !HasReviewer(a.votes, v.reviewer)
    ensures Distinct(more + [v]) && v.reviewer !in Voters(given)
  {
    forall x | x in given ensures x.reviewer != v.reviewer { assert x in a.votes; }
    forall i | 0 <= i < |more| ensures more[i].reviewer != v.reviewer { assert more[i] in a.votes; }
  }

  lemma {:induction false} VotedCount(given: seq<Vote>, more: seq<Vote>)
    requires AllApprove(more)
    ensures ApproveCount(given + more) == ApproveCount(given) + |more|
  {
    CountAdds(given, more);
    AllApproveCount(more);
  }

  lemma TallyNext(a: Action, b: Action, count: nat, n: nat)
    requires Open(a) && Tally(a, count, n) && b.required == a.required
    requires b.state == Rejected || b.state == if count + n + 1 >= b.required then Approved else Reviewing
    ensures Tally(b, count, n + 1)
  {
  }

  lemma {:induction false} VoteTallies(given: seq<Vote>, a: Action, more: seq<Vote>, v: Vote)
    requires a.votes == given + more && AllApprove(more) && Tally(a, ApproveCount(given), |more|) && Open(a)
    ensures Tally(Voted(a, v), ApproveCount(given), |more| + 1)
    ensures Voted(a, v).votes == given + (more + [v])
  {
    var votes := given + (more + [v]);
    assert a.votes + [v] == votes by { assert (given + more) + [v] == votes; }
    assert v.decision == Approve ==> ApproveCount(votes) == ApproveCount(given) + |more| + 1 by {
      if v.decision == Approve { VotedCount(given, more + [v]); }
    }
    TallyNext(a, Voted(a, v), ApproveCount(given), |more|);
  }

  lemma {:induction false} VoteAdds(given: seq<Vote>, a: Action, more: seq<Vote>, v: Vote)
    requires Added(given, a, more) && Open(a) && v.reviewer != a.requester && !HasReviewer(a.votes, v.reviewer)
    ensures Added(given, Voted(a, v), more + [v])
  {
    NewVoter(given, a, more, v);
    VoteTallies(given, a, more, v);
    assert |more + [v]| == |more| + 1;
  }

  lemma {:induction false} StepAdds(c: Config, store: Store, op: Op, id: string, given: seq<Vote>, more: seq<Vote>)
    returns (more1: seq<Vote>)
    requires id in store && Added(given, store[id], more)
    ensures id in Apply(c, store, op).0 && Added(given, Apply(c, store, op).0[id], more1)
  {
    more1 := more;
    if op.Review? && op.id == id && Outcome(c, store[id], op).1.None? {
      var v := Vote(op.reviewer, op.decision, op.note, op.now);
      VoteAdds(given, store[id], more, v);
      more1 := more + [v];
    }
  }

  lemma {:induction false} RunAdds(c: Config, store: Store, ops: seq<Op>, id: string) returns (more: seq<Vote>)
    requires id in store && store[id].state == Pending
    ensures id in Run(c, store, ops) && Added(store[id].votes, Run(c, store, ops)[id], more)
    ensures var a := Run(c, store, ops)[id]; a.requester == store[id].requester && a.required == store[id].required
  {
    more := [];
    if ops != [] {
      more := RunAdds(c, store, ops[..|ops| - 1], id);
      more := StepAdds(c, Run(c, store, ops[..|ops| - 1]), ops[|ops| - 1], id, store[id].votes, more);
    }
    HistoryIsAppendOnly(c, store, ops, id);
  }

  /** The given votes do no harm: all approve, none is the requester's, and nobody's counts twice
      unless one more person is enough anyway. */
  ghost predicate Harmless(requester: string, given: seq<Vote>, required: int) {
    && (forall v | v in given :: v.decision == Approve && v.reviewer != requester)
    && (ApproveCount(given) == |Approvers(given)| || |Approvers(given)| + 1 >= required)
  }

  lemma {:induction false} PeopleAdd(given: seq<Vote>, more: seq<Vote>)
    requires Distinct(more) && forall v | v in more :: v.decision == Approve && v.reviewer !in Voters(given)
    ensures |Approvers(given + more)| == |Approvers(given)| + |more|
  {
    CountIsPeople(more);
    AllApproveCount(more);
    assert Approvers(given + more) == Approvers(given) + Approvers(more);
    assert Approvers(given) !! Approvers(more) by {
      forall r | r in Approvers(given) ensures r in Voters(given) {}
    }
  }

  lemma {:induction false} GenuineIffHarmless(given: seq<Vote>, a: Action, more: seq<Vote>)
    requires Added(given, a, more) && Passed(a)
    ensures Genuine(a) <==> Harmless(a.requester, given, a.required)
  {
    PeopleAdd(given, more);
    CountsAtLeastPeople(given);
    assert forall v :: v in a.votes <==> v in given || v in more;
    assert (a.requester in Approvers(a.votes)) == (a.requester in Approvers(given));
  }

  // ---------------------------------------------------------------- an approval can always be reached

  /** A name longer than all names so far. */
  function Name(length: nat): (name: string)
    ensures |name| == length
  {
    seq(length, _ => 'r')
  }

  ghost predicate Shorter(a: Action, length: nat) {
    |a.requester| < length && forall v | v in a.votes :: |v.reviewer| < length
  }

  lemma {:induction false} NamesAreBounded(votes: seq<Vote>) returns (length: nat)
    ensures forall v | v in votes :: |v.reviewer| < length
  {
    length := 0;
    if votes != [] {
      length := NamesAreBounded(votes[..|votes| - 1]);
      var last := votes[|votes| - 1];
      assert forall v | v in votes :: v in votes[..|votes| - 1] || v == last;
      if |last.reviewer| >= length { length := |last.reviewer| + 1; }
    }
  }

  /** How many approvals are missing. */
  function Missing(a: Action): nat {
    if a.required <= ApproveCount(a.votes) then 0 else a.required - ApproveCount(a.votes)
  }

  function ApprovalBy(id: string, a: Action, length: nat): Op {
    Review(id, Name(length), "", Approve, a.expiresAt)
  }

  lemma {:induction false} OneMoreApproval(c: Config, store: Store, id: string, length: nat)
    requires id in store && Open(store[id]) && Shorter(store[id], length)
    ensures var a, b := store[id], Apply(c, store, ApprovalBy(id, store[id], length)).0[id];
            Shorter(b, length + 1) && (b.state == Approved || (b.state == Reviewing && Missing(b) < Missing(a)))
  {
    var a := store[id];
    var v := Vote(Name(length), Approve, "", a.expiresAt);
    VotedCount(a.votes, [v]);
    assert Apply(c, store, ApprovalBy(id, a, length)).0[id] == Voted(a, v);
  }

  lemma {:induction false} ComesToApproval(c: Config, store: Store, ops: seq<Op>, id: string, length: nat)
    returns (all: seq<Op>)
    requires id in Run(c, store, ops) && Open(Run(c, store, ops)[id]) && Shorter(Run(c, store, ops)[id], length)
    ensures id in Run(c, store, all) && Run(c, store, all)[id].state == Approved
    decreases Missing(Run(c, store, ops)[id])
  {
    var op := ApprovalBy(id, Run(c, store, ops)[id], length);
    assert (ops + [op])[..|ops|] == ops;
    OneMoreApproval(c, Run(c, store, ops), id, length);
    all := ops + [op];
    if Run(c, store, all)[id].state != Approved { all := ComesToApproval(c, store, all, id, length + 1); }
  }

  // ---------------------------------------------------------------- the theorem

  /** The votes an accepted request brings along: every approval that is ever reached from it is
      genuine exactly if those votes do no harm, which can be told when the request is made. */
  lemma {:induction false} GivenVotesCount(c: Config, before: Store, op: Op)
    requires op.Request? && Apply(c, before, op).1.None?
    ensures var store, id := Apply(c, before, op).0, Named(op);
            && id in store
            && (forall ops :: id in Run(c, store, ops))
            && ((forall ops | Passed(Run(c, store, ops)[id]) :: Genuine(Run(c, store, ops)[id]))
                <==> Harmless(op.action.requester, op.action.votes, store[id].required))
  {
    var store, id := Apply(c, before, op).0, Named(op);
    var a := store[id];
    forall ops
      ensures id in Run(c, store, ops)
      ensures Passed(Run(c, store, ops)[id]) ==>
                (Genuine(Run(c, store, ops)[id]) <==> Harmless(a.requester, a.votes, a.required))
    {
      var more := RunAdds(c, store, ops, id);
      if Passed(Run(c, store, ops)[id]) { GenuineIffHarmless(a.votes, Run(c, store, ops)[id], more); }
    }
    var length := NamesAreBounded(a.votes);
    if |a.requester| >= length { length := |a.requester| + 1; }
    assert Run(c, store, []) == store;
    var reached := ComesToApproval(c, store, [], id, length);
    assert Passed(Run(c, store, reached)[id]);
  }
}
