/** The local cache of packages/payment-util/configcenter/client.go: every key has an active and a
    pending slot, a ticker promotes pending values that have become due, and every change keeps the
    snapshot it replaces as a fallback. */
module ConfigCache {
  import opened Prelude

  /** Times are integers; `None` is the zero time of the source. */
  datatype Value = Value(key: string, content: string, version: int, effectiveAt: Option<int>, expireAt: Option<int>)
  datatype Entry = Entry(active: Option<Value>, pending: Option<Value>)
  datatype Snapshot = Snapshot(entries: map<string, Entry>, fallback: Option<Snapshot>)
  datatype Answer = Found(value: Value) | NotFound | NotEffective

  type Cache = Option<Snapshot>

  /** What changes the cache: a tick of the swapper, an update or a deletion pushed by the server. */
  datatype Op =
    | Tick(at: int)
    | Push(value: Value, at: int)
    | Delete(value: Value, at: int)

  predicate IsEffective(v: Value, now: int) {
    && (v.effectiveAt.Some? ==> now >= v.effectiveAt.value)
    && (v.expireAt.Some? ==> now < v.expireAt.value)
  }

  predicate Due(v: Option<Value>, now: int) {
    v.Some? && IsEffective(v.value, now)
  }

  function Get(cache: Cache, now: int, key: string): Answer {
    if cache.None? then NotFound
    else
      var s := cache.value;
      if key in s.entries && Due(s.entries[key].pending, now) then Found(s.entries[key].pending.value)
      else if key in s.entries && Due(s.entries[key].active, now) then Found(s.entries[key].active.value)
      else if s.fallback.Some? && key in s.fallback.value.entries && Due(s.fallback.value.entries[key].active, now) then
        Found(s.fallback.value.entries[key].active.value)
      else NotEffective
  }

  function Promote(e: Entry, now: int): Entry {
    if Due(e.pending, now) then Entry(e.pending, None) else e
  }

  predicate AnyDue(s: Snapshot, now: int) {
    exists k :: k in s.entries && Due(s.entries[k].pending, now)
  }

  /** `maybeSwap`. */
  function Swap(cache: Cache, now: int): Cache {
    if cache.None? || !AnyDue(cache.value, now) then cache
    else
      var s := cache.value;
      Some(Snapshot(map k | k in s.entries :: Promote(s.entries[k], now), cache))
  }

  function Entries(cache: Cache): map<string, Entry> {
    if cache.Some? then cache.value.entries else map[]
  }

  /** The slot routing of `onEvent` for an update. */
  function Route(prev: Entry, v: Value, now: int): Entry {
    if IsEffective(v, now) then Entry(Some(v), None)
    else if v.effectiveAt.Some? && v.effectiveAt.value > now then Entry(prev.active, Some(v))
    else prev
  }

  /** `onEvent`. */
  function Apply(cache: Cache, op: Op): Cache {
    match op
    case Tick(at) => Swap(cache, at)
    case Delete(v, _) => Some(Snapshot(Entries(cache) - {v.key}, cache))
    case Push(v, at) =>
      var prev := if v.key in Entries(cache) then Entries(cache)[v.key] else Entry(None, None);
      Some(Snapshot(Entries(cache)[v.key := Route(prev, v, at)], cache))
  }

  function ApplyAll(cache: Cache, ops: seq<Op>): Cache {
    if ops == [] then cache else Apply(ApplyAll(cache, ops[..|ops| - 1]), ops[|ops| - 1])
  }

  // ---------------------------------------------------------------- one key

  function EntryOf(cache: Cache, key: string): Option<Entry> {
    if key in Entries(cache) then Some(Entries(cache)[key]) else None
  }

  /** What the slots of the key itself have to offer at time `t`. */
  function Best(e: Option<Entry>, t: int): Option<Value> {
    if e.None? then None
    else if Due(e.value.pending, t) then e.value.pending
    else if Due(e.value.active, t) then e.value.active
    else None
  }

  function StepEntry(e: Option<Entry>, key: string, op: Op): Option<Entry> {
    match op
    case Tick(at) => if e.Some? then Some(Promote(e.value, at)) else None
    case Delete(v, _) => if v.key == key then None else e
    case Push(v, at) => if v.key == key then Some(Route(if e.Some? then e.value else Entry(None, None), v, at)) else e
  }

  lemma OneKey(cache: Cache, key: string, op: Op)
    ensures EntryOf(Apply(cache, op), key) == StepEntry(EntryOf(cache, key), key, op)
  {
  }

  lemma GetIsBest(cache: Cache, t: int, key: string)
    requires Best(EntryOf(cache, key), t).Some?
    ensures Get(cache, t, key) == Found(Best(EntryOf(cache, key), t).value)
  {
  }

  // ---------------------------------------------------------------- what can be answered

  /** The three slots `Get` looks at. */
  predicate Offered(cache: Cache, key: string, v: Value) {
    cache.Some? &&
    var s := cache.value;
    || (key in s.entries && (s.entries[key].pending == Some(v) || s.entries[key].active == Some(v)))
    || (s.fallback.Some? && key in s.fallback.value.entries && s.fallback.value.entries[key].active == Some(v))
  }

  /** A value is answered exactly if one of those slots holds a value whose time has come and not gone,
      and what is answered is such a value. */
  lemma FoundIff(cache: Cache, now: int, key: string)
    ensures Get(cache, now, key).Found? <==>
            exists v :: && Offered(cache, key, v) && (v.effectiveAt.Some? ==> v.effectiveAt.value <= now)
                        && (v.expireAt.Some? ==> now < v.expireAt.value)
    ensures Get(cache, now, key).Found? ==>
              var v := Get(cache, now, key).value;
              && Offered(cache, key, v) && (v.effectiveAt.Some? ==> v.effectiveAt.value <= now)
              && (v.expireAt.Some? ==> now < v.expireAt.value)
    ensures Get(cache, now, key).NotFound? <==> cache.None?
  {
  }

  predicate Slot(v: Option<Value>, key: string, values: set<Value>) {
    v.Some? ==> v.value.key == key && v.value in values
  }

  predicate Slots(entries: map<string, Entry>, values: set<Value>) {
    forall key | key in entries :: Slot(entries[key].active, key, values) && Slot(entries[key].pending, key, values)
  }

  predicate HoldsOnly(cache: Cache, values: set<Value>) {
    cache.Some? ==>
      && Slots(cache.value.entries, values)
      && (cache.value.fallback.Some? ==> Slots(cache.value.fallback.value.entries, values))
  }

  function Pushed(ops: seq<Op>): set<Value> {
    set op | op in ops && op.Push? :: op.value
  }

  lemma {:induction false} RunHoldsOnly(ops: seq<Op>, values: set<Value>)
    requires Pushed(ops) <= values
    ensures HoldsOnly(ApplyAll(None, ops), values)
  {
    if ops != [] {
      var before, op := ops[..|ops| - 1], ops[|ops| - 1];
      assert op in ops && (op.Push? ==> op.value in Pushed(ops));
      forall x | x in before && x.Push? ensures x.value in values { assert x in ops && x.value in Pushed(ops); }
      RunHoldsOnly(before, values);
    }
  }

  /** However updates, deletions and ticks follow each other: what a key answers was pushed for that
      key, has taken effect and has not expired. */
  lemma {:induction false} AnswersAreInForce(ops: seq<Op>, now: int, key: string)
    requires Get(ApplyAll(None, ops), now, key).Found?
    ensures var v := Get(ApplyAll(None, ops), now, key).value;
            && v.key == key && (exists op :: op in ops && op.Push? && op.value == v)
            && (v.effectiveAt.Some? ==> v.effectiveAt.value <= now)
            && (v.expireAt.Some? ==> now < v.expireAt.value)
  {
    RunHoldsOnly(ops, Pushed(ops));
    FoundIff(ApplyAll(None, ops), now, key);
  }

  predicate Lasts(v: Option<Value>) {
    v.Some? ==> v.value.expireAt.None?
  }

  predicate EntryLasts(e: Option<Entry>) {
    e.Some? ==> Lasts(e.value.active) && Lasts(e.value.pending)
  }

  predicate OpLasts(op: Op, key: string) {
    op.Push? && op.value.key == key ==> op.value.expireAt.None?
  }

  // ---------------------------------------------------------------- ticks do not change answers

  /** One tick before `t` changes what a key offers at `t` in exactly one case: it promotes a pending
      value that has expired by `t`, and so drops an active value still effective then. */
  lemma TickIsInvisibleIff(e: Entry, u: int, t: int)
    requires u <= t
    ensures Best(Some(Promote(e, u)), t) == Best(Some(e), t)
            <==> !(Due(e.pending, u) && !Due(e.pending, t) && Due(e.active, t))
  {
  }

  function WithoutTicks(ops: seq<Op>): seq<Op> {
    if ops == [] then []
    else
      var before := WithoutTicks(ops[..|ops| - 1]);
      if ops[|ops| - 1].Tick? then before else before + [ops[|ops| - 1]]
  }

  predicate Ordered(ops: seq<Op>) {
    forall i, j | 0 <= i <= j < |ops| :: ops[i].at <= ops[j].at
  }

  /** An update of the key scheduled for later that arrives while the pending value is due. */
  predicate Overtakes(e: Option<Entry>, key: string, op: Op) {
    && op.Push? && op.value.key == key && op.value.effectiveAt.Some? && op.value.effectiveAt.value > op.at
    && e.Some? && Due(e.value.pending, op.at)
  }

  ghost predicate NoneOvertakes(cache: Cache, ops: seq<Op>, key: string) {
    forall i | 0 <= i < |ops| && !ops[i].Tick? ::
      !Overtakes(EntryOf(ApplyAll(cache, WithoutTicks(ops[..i])), key), key, ops[i])
  }

  /** The slots with ticks are those without, possibly with a due value already promoted. */
  predicate Ahead(ticked: Option<Entry>, plain: Option<Entry>, now: int) {
    ticked == plain ||
    (plain.Some? && Due(plain.value.pending, now) && ticked == Some(Entry(plain.value.pending, None)))
  }

  lemma WithoutLastTick(cache: Cache, ops: seq<Op>, key: string)
    requires ops != []
    ensures var n := |ops| - 1;
            EntryOf(ApplyAll(cache, WithoutTicks(ops)), key)
            == if ops[n].Tick? then EntryOf(ApplyAll(cache, WithoutTicks(ops[..n])), key)
               else StepEntry(EntryOf(ApplyAll(cache, WithoutTicks(ops[..n])), key), key, ops[n])
  {
    var n := |ops| - 1;
    var before := WithoutTicks(ops[..n]);
    if !ops[n].Tick? {
      assert (before + [ops[n]])[..|before|] == before;
      OneKey(ApplyAll(cache, before), key, ops[n]);
    }
  }

  lemma AheadStays(ticked: Option<Entry>, plain: Option<Entry>, key: string, op: Op, now: int)
    requires Ahead(ticked, plain, now) && now <= op.at && EntryLasts(plain) && OpLasts(op, key)
    requires op.Tick? || !Overtakes(plain, key, op)
    ensures var after := if op.Tick? then plain else StepEntry(plain, key, op);
            Ahead(StepEntry(ticked, key, op), after, op.at) && EntryLasts(after)
  {
  }

  lemma {:induction false} TicksOnlyRunAhead(cache: Cache, ops: seq<Op>, key: string)
    requires Ordered(ops) && EntryLasts(EntryOf(cache, key)) && forall op | op in ops :: OpLasts(op, key)
    requires NoneOvertakes(cache, ops, key)
    ensures ops == [] ==> EntryOf(ApplyAll(cache, ops), key) == EntryOf(ApplyAll(cache, WithoutTicks(ops)), key)
    ensures ops != [] ==>
              Ahead(EntryOf(ApplyAll(cache, ops), key),
                    EntryOf(ApplyAll(cache, WithoutTicks(ops)), key), ops[|ops| - 1].at)
    ensures EntryLasts(EntryOf(ApplyAll(cache, WithoutTicks(ops)), key))
  {
    if ops != [] {
      var n := |ops| - 1;
      var before, op := ops[..n], ops[n];
      assert op in ops && forall x | x in before :: x in ops;
      forall i | 0 <= i < n && !before[i].Tick?
        ensures !Overtakes(EntryOf(ApplyAll(cache, WithoutTicks(before[..i])), key), key, before[i])
      {
        assert before[..i] == ops[..i] && before[i] == ops[i];
      }
      TicksOnlyRunAhead(cache, before, key);
      OneKey(ApplyAll(cache, before), key, op);
      WithoutLastTick(cache, ops, key);
      AheadStays(EntryOf(ApplyAll(cache, before), key), EntryOf(ApplyAll(cache, WithoutTicks(before)), key), key, op,
                 if n == 0 then op.at else ops[n - 1].at);
    }
  }

  /** For a key whose values do not expire, the answer at `t` does not depend on when, or whether,
      the swapper ticked before, unless a scheduled update arrived while the value pending before it
      was already due. */
  lemma {:induction false} TicksDoNotMatter(cache: Cache, ops: seq<Op>, key: string, t: int)
    requires Ordered(ops) && (forall op | op in ops :: op.at <= t && OpLasts(op, key))
    requires EntryLasts(EntryOf(cache, key)) && NoneOvertakes(cache, ops, key)
    requires Best(EntryOf(ApplyAll(cache, WithoutTicks(ops)), key), t).Some?
    ensures Get(ApplyAll(cache, ops), t, key) == Get(ApplyAll(cache, WithoutTicks(ops)), t, key)
  {
    TicksOnlyRunAhead(cache, ops, key);
    if ops != [] { assert ops[|ops| - 1] in ops; }
    GetIsBest(ApplyAll(cache, ops), t, key);
    GetIsBest(ApplyAll(cache, WithoutTicks(ops)), t, key);
  }

  /** In particular ticks and events for other keys, in any order, leave the answer as it was. */
  lemma {:induction false} OthersDoNotMatter(cache: Cache, ops: seq<Op>, key: string, t: int)
    requires EntryLasts(EntryOf(cache, key)) && Best(EntryOf(cache, key), t).Some?
    requires forall op | op in ops :: op.at <= t && (op.Tick? || op.value.key != key)
    ensures Get(ApplyAll(cache, ops), t, key) == Get(cache, t, key)
    ensures EntryLasts(EntryOf(ApplyAll(cache, ops), key))
    ensures Best(EntryOf(ApplyAll(cache, ops), key), t) == Best(EntryOf(cache, key), t)
  {
    if ops != [] {
      var before, op := ops[..|ops| - 1], ops[|ops| - 1];
      assert op in ops;
      OthersDoNotMatter(cache, before, key, t);
      OneKey(ApplyAll(cache, before), key, op);
      GetIsBest(ApplyAll(cache, ops), t, key);
    }
    GetIsBest(cache, t, key);
  }

  // ---------------------------------------------------------------- where code and comments part

  /** If a scheduled update arrives while the pending value is due, a tick just before it decides
      what the key offers until the update takes effect; in every other case it does not. */
  lemma OvertakingLosesTheDueValue(e: Entry, v: Value, u: int, t: int)
    requires u <= t && Lasts(e.active) && Lasts(e.pending) && v.expireAt.None?
    ensures Best(Some(Route(Promote(e, u), v, u)), t) == Best(Some(Route(e, v, u)), t)
            <==> !Overtakes(Some(e), v.key, Push(v, u)) || IsEffective(v, t)
                 || (if Due(e.active, t) then e.active else None) == e.pending
  {
  }

  /** What the comment on `onEvent` promises for a value that takes effect at once: a pending value
      goes only if its version is lower. */
  function Documented(prev: Entry, v: Value): Entry {
    Entry(Some(v), if prev.pending.Some? && prev.pending.value.version >= v.version then prev.pending else None)
  }

  /** The code never compares versions, so it does what the comment says exactly when nothing is
      pending or the pending version is lower. */
  lemma ImmediateDropsPending(prev: Entry, v: Value, now: int)
    requires IsEffective(v, now)
    ensures Route(prev, v, now) == Documented(prev, v)
            <==> prev.pending.Some? ==> prev.pending.value.version < v.version
  {
  }

  /** Version 4 arrives late, and version 5, already scheduled, never takes effect. */
  lemma LateOldVersionWins()
    ensures var v4 := Value("k", "old", 4, None, None);
            var v5 := Value("k", "new", 5, Some(10), None);
            Get(ApplyAll(None, [Push(v5, 1), Push(v4, 2)]), 20, "k") == Found(v4)
  {
    var v4 := Value("k", "old", 4, None, None);
    var v5 := Value("k", "new", 5, Some(10), None);
    assert [Push(v5, 1), Push(v4, 2)][..1] == [Push(v5, 1)] && [Push(v5, 1)][..0] == [];
    OneKey(None, "k", Push(v5, 1));
    OneKey(Apply(None, Push(v5, 1)), "k", Push(v4, 2));
    GetIsBest(ApplyAll(None, [Push(v5, 1), Push(v4, 2)]), 20, "k");
  }

  /** A deletion is answered from the fallback: the key keeps its old active value exactly as long
      as that is effective. */
  lemma DeletionIsServedFromFallback(cache: Cache, v: Value, at: int, t: int)
    requires cache.Some?
    ensures Get(Apply(cache, Delete(v, at)), t, v.key)
            == var e := EntryOf(cache, v.key);
               if e.Some? && Due(e.value.active, t) then Found(e.value.active.value) else NotEffective
  {
  }

  /** Only the next change of any other key makes it disappear. */
  lemma DeletionTakesTwoChanges(cache: Cache, v: Value, at: int, other: Op, t: int)
    requires !other.Tick? && other.value.key != v.key
    ensures Get(Apply(Apply(cache, Delete(v, at)), other), t, v.key) == NotEffective
  {
  }
}
