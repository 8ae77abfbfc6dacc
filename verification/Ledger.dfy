/** The double-entry handler of packages/accounting-system/internal/outboxconsumer/handler.go and
    the balances its movements add up to. */
module Ledger {
  import opened Prelude

  /** The fields the handler decodes from an event payload; an absent field decodes to its zero
      value, and a payload that is not JSON decodes to nothing. */
  datatype Payload = Payload(id: string, merchant: string, currency: string, amount: int, fees: int, net: int)

  datatype Event = Event(id: string, kind: string, body: string, payload: Option<Payload>)

  datatype Movement = Movement(debit: string, credit: string, amount: int, currency: string)

  datatype Handling = Ignored | Malformed | Post(movements: seq<Movement>)

  function Wallet(p: Payload): string { "cust_wallet/" + p.merchant }
  function Receivable(p: Payload): string { "merchant_ar/" + p.merchant }
  function Revenue(p: Payload): string { "platform_revenue/" + p.currency }
  function Bank(p: Payload): string { "our_bank/" + p.currency }

  function Handle(e: Event): (h: Handling) {
    if e.kind !in {"ChargeCaptured", "ChargeRefunded", "RefundCompleted", "PayoutSettled", "PayoutReversed"}
      then Ignored
    else if e.payload.None? then Malformed
    else
      var p := e.payload.value;
      if e.kind == "ChargeCaptured" then
        Post([Movement(Wallet(p), Receivable(p), p.amount, p.currency)] +
             if p.fees > 0 then [Movement(Receivable(p), Revenue(p), p.fees, p.currency)] else [])
      else if e.kind == "ChargeRefunded" || e.kind == "RefundCompleted" then
        Post([Movement(Receivable(p), Wallet(p), p.amount, p.currency)])
      else if e.kind == "PayoutSettled" then
        Post([Movement(Receivable(p), Bank(p), p.net, p.currency)])
      else
        Post([Movement(Bank(p), Receivable(p), p.net, p.currency)])
  }

  // ---------------------------------------------------------------- balances kept in place

  type Balances = map<(string, string), int>

  function Balance(b: Balances, account: string, currency: string): int {
    if (account, currency) in b then b[(account, currency)] else 0
  }

  function Add(b: Balances, account: string, currency: string, amount: int): Balances {
    b[(account, currency) := Balance(b, account, currency) + amount]
  }

  function PostOne(b: Balances, m: Movement): Balances {
    Add(Add(b, m.debit, m.currency, m.amount), m.credit, m.currency, -m.amount)
  }

  function PostAll(b: Balances, ms: seq<Movement>): Balances {
    if ms == [] then b else PostOne(PostAll(b, ms[..|ms| - 1]), ms[|ms| - 1])
  }

  // ---------------------------------------------------------------- what they should be

  /** What one movement adds to an account. */
  function Delta(m: Movement, account: string, currency: string): int {
    if m.currency != currency then 0
    else (if m.debit == account then m.amount else 0) - (if m.credit == account then m.amount else 0)
  }

  function Deltas(ms: seq<Movement>, account: string, currency: string): int {
    if ms == [] then 0 else Deltas(ms[..|ms| - 1], account, currency) + Delta(ms[|ms| - 1], account, currency)
  }

  /** What one event adds to an account. */
  function Effect(e: Event, account: string, currency: string): int {
    if Handle(e).Post? then Deltas(Handle(e).movements, account, currency) else 0
  }

  /** Every event counted once. */
  function Effects(events: seq<Event>, account: string, currency: string): int {
    if events == [] then 0
    else Effects(events[..|events| - 1], account, currency) + Effect(events[|events| - 1], account, currency)
  }

  lemma {:induction false} PostAllAdds(b: Balances, ms: seq<Movement>, account: string, currency: string)
    ensures Balance(PostAll(b, ms), account, currency) == Balance(b, account, currency) + Deltas(ms, account, currency)
  {
    if ms != [] { PostAllAdds(b, ms[..|ms| - 1], account, currency); }
  }

  // ---------------------------------------------------------------- what the five events mean

  /** Moving `amount` into one account and out of another. */
  function Moved(into: string, from: string, amount: int, account: string): int {
    (if account == into then amount else 0) - if account == from then amount else 0
  }

  lemma {:induction false} OneMovement(m: Movement, account: string)
    ensures Deltas([m], account, m.currency) == Moved(m.debit, m.credit, m.amount, account)
  {
    assert [m][..0] == [];
  }

  lemma {:induction false} TwoMovements(m: Movement, m1: Movement, account: string)
    requires m.currency == m1.currency
    ensures Deltas([m, m1], account, m.currency)
            == Moved(m.debit, m.credit, m.amount, account) + Moved(m1.debit, m1.credit, m1.amount, account)
  {
    assert [m, m1][..1] == [m];
    OneMovement(m, account);
  }

  /** A captured charge moves its amount from the merchant's receivable into the wallet and positive
      fees from the platform's revenue into the receivable; refunds take the amount back; a payout
      moves its net amount from the bank into the receivable, and its reversal takes it back. */
  lemma {:induction false} WhatEventsMove(e: Event, account: string)
    requires e.payload.Some?
    ensures var p := e.payload.value;
            var charged, paid := Moved(Wallet(p), Receivable(p), p.amount, account),
                                 Moved(Receivable(p), Bank(p), p.net, account);
            var fees := if p.fees > 0 then Moved(Receivable(p), Revenue(p), p.fees, account) else 0;
            && (e.kind == "ChargeCaptured" ==> Effect(e, account, p.currency) == charged + fees)
            && (e.kind == "ChargeRefunded" || e.kind == "RefundCompleted" ==>
                  Effect(e, account, p.currency) == -charged)
            && (e.kind == "PayoutSettled" ==> Effect(e, account, p.currency) == paid)
            && (e.kind == "PayoutReversed" ==> Effect(e, account, p.currency) == -paid)
  {
    var p := e.payload.value;
    var charge, fee := Movement(Wallet(p), Receivable(p), p.amount, p.currency),
                       Movement(Receivable(p), Revenue(p), p.fees, p.currency);
    OneMovement(charge, account);
    TwoMovements(charge, fee, account);
    assert [charge] + [] == [charge] && [charge] + [fee] == [charge, fee];
    OneMovement(Movement(Receivable(p), Wallet(p), p.amount, p.currency), account);
    OneMovement(Movement(Receivable(p), Bank(p), p.net, p.currency), account);
    OneMovement(Movement(Bank(p), Receivable(p), p.net, p.currency), account);
  }

  lemma {:induction false} PrefixDecides(prefix: string, a: string, b: string)
    ensures prefix + a == prefix + b <==> a == b
  {
    assert (prefix + a)[|prefix|..] == a && (prefix + b)[|prefix|..] == b;
  }

  /** The four accounts are different whatever the payloads say, and no two merchants or currencies
      share one. */
  lemma {:induction false} AccountsDiffer(p: Payload, q: Payload)
    ensures Wallet(p) != Receivable(q) && Wallet(p) != Revenue(q) && Wallet(p) != Bank(q)
    ensures Receivable(p) != Revenue(q) && Receivable(p) != Bank(q) && Revenue(p) != Bank(q)
    ensures Wallet(p) == Wallet(q) <==> p.merchant == q.merchant
    ensures Receivable(p) == Receivable(q) <==> p.merchant == q.merchant
    ensures Revenue(p) == Revenue(q) <==> p.currency == q.currency
    ensures Bank(p) == Bank(q) <==> p.currency == q.currency
  {
    FirstLetters(p);
    FirstLetters(q);
    PrefixDecides("cust_wallet/", p.merchant, q.merchant);
    PrefixDecides("merchant_ar/", p.merchant, q.merchant);
    PrefixDecides("platform_revenue/", p.currency, q.currency);
    PrefixDecides("our_bank/", p.currency, q.currency);
  }

  lemma FirstLetters(p: Payload)
    ensures Wallet(p)[0] == 'c' && Receivable(p)[0] == 'm' && Revenue(p)[0] == 'p' && Bank(p)[0] == 'o'
  {
  }

  /** What an event that is posted leaves on the wallet, the receivable, the revenue and the bank
      account of its payload. */
  function Shares(e: Event): (int, int, int, int)
    requires e.payload.Some?
  {
    var p := e.payload.value;
    var fees := if p.fees > 0 then p.fees else 0;
    if e.kind == "ChargeCaptured" then (p.amount, fees - p.amount, -fees, 0)
    else if e.kind == "ChargeRefunded" || e.kind == "RefundCompleted" then (-p.amount, p.amount, 0, 0)
    else if e.kind == "PayoutSettled" then (0, p.net, 0, -p.net)
    else if e.kind == "PayoutReversed" then (0, -p.net, 0, p.net)
    else (0, 0, 0, 0)
  }

  lemma {:induction false} SharesAreExact(e: Event)
    requires e.payload.Some?
    ensures var p := e.payload.value;
            Shares(e) == (Effect(e, Wallet(p), p.currency), Effect(e, Receivable(p), p.currency),
                          Effect(e, Revenue(p), p.currency), Effect(e, Bank(p), p.currency))
  {
    var p := e.payload.value;
    AccountsDiffer(p, p);
    WhatEventsMove(e, Wallet(p));
    WhatEventsMove(e, Receivable(p));
    WhatEventsMove(e, Revenue(p));
    WhatEventsMove(e, Bank(p));
  }

  /** So a refund or a reversal with the same payload undoes its event on every account, up to the
      fees that stay with the platform. */
  lemma {:induction false} ReversalsUndo(e: Event, r: Event, account: string)
    requires e.payload.Some? && r.payload == e.payload
    requires (e.kind == "PayoutSettled" && r.kind == "PayoutReversed")
             || (e.kind == "ChargeCaptured" && r.kind in {"ChargeRefunded", "RefundCompleted"})
    ensures var p := e.payload.value;
            Effects([e, r], account, p.currency)
            == if e.kind == "ChargeCaptured" && p.fees > 0 then Moved(Receivable(p), Revenue(p), p.fees, account) else 0
  {
    WhatEventsMove(e, account);
    WhatEventsMove(r, account);
    var currency := e.payload.value.currency;
    assert [e][..0] == [] && Effects([e], account, currency) == Effect(e, account, currency);
    assert [e, r][..1] == [e] && Effects([e, r], account, currency)
      == Effects([e], account, currency) + Effect(r, account, currency);
  }

  // ---------------------------------------------------------------- money is conserved

  predicate Distinct<T(==)>(s: seq<T>) {
    forall i, j | 0 <= i < j < |s| :: s[i] != s[j]
  }

  function Total(b: Balances, accounts: seq<string>, currency: string): int {
    if accounts == [] then 0
    else Total(b, accounts[..|accounts| - 1], currency) + Balance(b, accounts[|accounts| - 1], currency)
  }

  ghost predicate Covers(accounts: seq<string>, ms: seq<Movement>) {
    forall m | m in ms :: m.debit in accounts && m.credit in accounts
  }

  lemma {:induction false} AddShiftsTotal(b: Balances, accounts: seq<string>, account: string, to: string,
                                          currency: string, amount: int)
    requires Distinct(accounts)
    ensures Total(Add(b, account, to, amount), accounts, currency)
            == Total(b, accounts, currency) + if account in accounts && to == currency then amount else 0
  {
    if accounts != [] {
      var n := |accounts| - 1;
      AddShiftsTotal(b, accounts[..n], account, to, currency, amount);
      assert accounts == accounts[..n] + [accounts[n]];
      assert accounts[n] !in accounts[..n];
    }
  }

  /** Posting movements moves money between accounts and creates none. */
  lemma {:induction false} PostKeepsTotal(b: Balances, ms: seq<Movement>, accounts: seq<string>, currency: string)
    requires Distinct(accounts) && Covers(accounts, ms)
    ensures Total(PostAll(b, ms), accounts, currency) == Total(b, accounts, currency)
  {
    if ms != [] {
      var m := ms[|ms| - 1];
      var b1 := PostAll(b, ms[..|ms| - 1]);
      PostKeepsTotal(b, ms[..|ms| - 1], accounts, currency);
      assert m in ms;
      AddShiftsTotal(b1, accounts, m.debit, m.currency, currency, m.amount);
      AddShiftsTotal(Add(b1, m.debit, m.currency, m.amount), accounts, m.credit, m.currency, currency, -m.amount);
    }
  }

  // ---------------------------------------------------------------- order does not matter

  lemma {:induction false} EffectsSplit(a: seq<Event>, b: seq<Event>, account: string, currency: string)
    ensures Effects(a + b, account, currency) == Effects(a, account, currency) + Effects(b, account, currency)
  {
    if b == [] {
      assert a + b == a;
    } else {
      var n := |b| - 1;
      EffectsSplit(a, b[..n], account, currency);
      assert (a + b)[..|a| + n] == a + b[..n];
    }
  }

  function Without<T>(s: seq<T>, i: nat): seq<T>
    requires i < |s|
  {
    s[..i] + s[i + 1..]
  }

  lemma EffectsWithout(a: seq<Event>, i: nat, account: string, currency: string)
    requires i < |a|
    ensures Effects(a, account, currency) == Effects(Without(a, i), account, currency) + Effect(a[i], account, currency)
  {
    assert a == a[..i] + [a[i]] + a[i + 1..];
    EffectsSplit(a[..i] + [a[i]], a[i + 1..], account, currency);
    assert (a[..i] + [a[i]])[..i] == a[..i];
    EffectsSplit(a[..i], a[i + 1..], account, currency);
  }

  lemma WithoutHolds<T>(a: seq<T>, i: nat)
    requires i < |a| && Distinct(a)
    ensures Distinct(Without(a, i)) && forall x :: x in Without(a, i) <==> x in a && x != a[i]
  {
    forall x | x in a && x != a[i] ensures x in Without(a, i) {
      var j :| 0 <= j < |a| && a[j] == x;
      assert Without(a, i)[if j < i then j else j - 1] == x;
    }
  }

  /** Two lists without repetitions that hold the same booked events have the same effect. */
  lemma {:induction false} SameEventsSameEffect(a: seq<Event>, b: seq<Event>, account: string, currency: string)
    requires Distinct(a) && Distinct(b)
    requires forall e | e in a :: e in b
    requires forall e | e in b && e !in a :: !Handle(e).Post?
    ensures Effects(a, account, currency) == Effects(b, account, currency)
    decreases |b|
  {
    assert a != [] ==> a[0] in b;
    if b != [] {
      var n := |b| - 1;
      WithoutHolds(b, n);
      EffectsWithout(b, n, account, currency);
      if b[n] in a {
        var i :| 0 <= i < |a| && a[i] == b[n];
        WithoutHolds(a, i);
        EffectsWithout(a, i, account, currency);
        SameEventsSameEffect(Without(a, i), Without(b, n), account, currency);
      } else {
        SameEventsSameEffect(a, Without(b, n), account, currency);
      }
    }
  }
}
