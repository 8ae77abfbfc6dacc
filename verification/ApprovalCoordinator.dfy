/** `MemStore` and `Coordinator` of packages/payment-util/approval, statement by statement: each
    method is one step of Approval on the stored actions. */
module ApprovalCoordinator {
  import opened Prelude
  import opened Approval

  class MemStore {
    var actions: map<string, Action>

    constructor ()
      ensures actions == map[]
    {
      actions := map[];
    }

    method Create(a: Action) returns (ok: bool)
      modifies this
      ensures ok == (a.id !in old(actions)) && actions == if ok then old(actions)[a.id := a] else old(actions)
    {
      if a.id in actions { return false; }
      actions := actions[a.id := a];
      return true;
    }

    method Get(id: string) returns (a: Option<Action>)
      ensures a == if id in actions then Some(actions[id]) else None
    {
      if id !in actions { return None; }
      return Some(actions[id]);
    }

    method Update(a: Action) returns (ok: bool)
      modifies this
      ensures ok == (a.id in old(actions)) && actions == if ok then old(actions)[a.id := a] else old(actions)
    {
      if a.id !in actions { return false; }
      actions := actions[a.id := a];
      return true;
    }
  }

  /** The loop of `HasReviewer`. */
  method FindReviewer(votes: seq<Vote>, reviewer: string) returns (found: bool)
    ensures found == HasReviewer(votes, reviewer)
  {
    var i := 0;
    while i < |votes|
      invariant i <= |votes| && forall k | 0 <= k < i :: votes[k].reviewer != reviewer
    {
      if votes[i].reviewer == reviewer { return true; }
      i := i + 1;
    }
    return false;
  }

  /** The loop of `ApproveCount`. */
  method CountApprovals(votes: seq<Vote>) returns (n: nat)
    ensures n == ApproveCount(votes)
  {
    n := 0;
    var i := 0;
    while i < |votes|
      invariant i <= |votes| && n == ApproveCount(votes[..i])
    {
      assert votes[..i + 1][..i] == votes[..i];
      if votes[i].decision == Approve { n := n + 1; }
      i := i + 1;
    }
    assert votes[..i] == votes;
  }

  class Coordinator {
    const config: Config
    const store: MemStore

    constructor (store: MemStore, config: Config)
      ensures this.store == store && this.config == Settings(config)
    {
      this.store := store;
      this.config := if config.required == 0 then Config(2, 7 * 24 * 3600, 30 * 60) else config;
    }

    method Request(input: Action, newId: string, now: int) returns (err: Option<Error>)
      requires Addressable(store.actions)
      modifies store
      ensures Addressable(store.actions)
      ensures (store.actions, err) == Apply(config, old(store.actions), Op.Request(input, newId, now))
    {
      var a := input;
      if a.kind == "" || a.resource == "" || a.requester == "" { return Some(InvalidState); }
      if a.id == "" { a := a.(id := newId); }
      a := a.(requestedAt := now, state := Pending);
      if a.required == 0 { a := a.(required := config.required); }
      if a.expiresAt == 0 { a := a.(expiresAt := now + config.expireAfter); }
      var ok := store.Create(a);
      return if ok then None else Some(DuplicateId);
    }

    method Review(id: string, reviewer: string, note: string, decision: Decision, now: int) returns (err: Option<Error>)
      requires Addressable(store.actions)
      modifies store
      ensures Addressable(store.actions)
      ensures (store.actions, err) == Apply(config, old(store.actions), Op.Review(id, reviewer, note, decision, now))
    {
      var got := store.Get(id);
      if got.None? { return Some(NotFound); }
      var a := got.value;
      assert store.actions[id := a] == store.actions;
      if now > a.expiresAt && a.state == Pending {
        var _ := store.Update(a.(state := Expired));
        return Some(InvalidState);
      }
      if a.state != Pending && a.state != Reviewing { return Some(AlreadyDecided); }
      if reviewer == a.requester { return Some(SelfApproval); }
      var voted := FindReviewer(a.votes, reviewer);
      if voted { return Some(DuplicateReviewer); }
      a := a.(votes := a.votes + [Vote(reviewer, decision, note, now)]);
      if decision == Reject {
        a := a.(state := Rejected);
      } else {
        var n := CountApprovals(a.votes);
        a := a.(state := if n >= a.required then Approved else Reviewing);
      }
      var ok := store.Update(a);
      return if ok then None else Some(NotFound);
    }

    method MarkExecuted(id: string, executor: string, now: int) returns (err: Option<Error>)
      requires Addressable(store.actions)
      modifies store
      ensures Addressable(store.actions)
      ensures (store.actions, err) == Apply(config, old(store.actions), Op.MarkExecuted(id, executor, now))
    {
      var got := store.Get(id);
      if got.None? { return Some(NotFound); }
      var a := got.value;
      assert store.actions[id := a] == store.actions;
      if a.state != Approved { return Some(InvalidState); }
      var ok := store.Update(a.(state := Executed, executedAt := now, executedBy := executor));
      return if ok then None else Some(NotFound);
    }

    /** The index of the last vote is valid because an approved action has votes. */
    method Cancel(id: string, requester: string, now: int) returns (err: Option<Error>)
      requires Addressable(store.actions)
      modifies store
      ensures Addressable(store.actions)
      ensures (store.actions, err) == Apply(config, old(store.actions), Op.Cancel(id, requester, now))
    {
      var got := store.Get(id);
      if got.None? { return Some(NotFound); }
      var a := got.value;
      assert store.actions[id := a] == store.actions;
      if a.requester != requester { return Some(SelfApproval); }
      match a.state {
        case Pending =>
        case Reviewing =>
        case Approved =>
          var approvedAt := a.votes[|a.votes| - 1].at;
          if now - approvedAt > config.cancelWindow { return Some(InvalidState); }
        case _ => return Some(InvalidState);
      }
      var ok := store.Update(a.(state := Cancelled, cancelledAt := now));
      return if ok then None else Some(NotFound);
    }
  }
}
