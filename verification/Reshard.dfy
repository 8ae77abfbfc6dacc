/** Copying the V1 tables into the V2 layout: any number of workers, each running `runShard` on some
    shard, interleaved statement by statement, with every failure the code allows for
    (packages/payment-util/reshard/migrator.go, checkpoint.go). */
module Reshard {
  import opened Prelude

  type Shard = (int, int)
  type Dst = (int, int)

  datatype Row = Row(pk: int, data: string)
  datatype Out = Out(dst: Dst, key: string, data: string)

  /** What stays fixed: the V1 tables, the row transformation, how often progress is saved. */
  datatype Migration = Migration(source: map<Shard, set<Row>>, transform: Row -> Option<Out>, commitEvery: int)

  type Tables = map<(Dst, string), string>
  type Buckets = map<Dst, seq<Out>>

  datatype Worker =
    | Ready(shard: Shard, tail: int, batches: nat)
    | Writing(shard: Shard, tail: int, batches: nat, maxPk: int, done: bool, buckets: Buckets)
    | Ending(shard: Shard, tail: int)

  /** `v2` and `saved` are stored; `finished` are the shards some worker has reported as done. */
  datatype State = State(v2: Tables, saved: map<Shard, int>, workers: map<nat, Worker>, finished: set<Shard>)

  const EMPTY := State(map[], map[], map[], {})

  datatype Event =
    | Begin(w: nat, shard: Shard, loaded: bool)
    | Scan(w: nat, rows: seq<Row>, maxPk: int, done: bool)
    | Write(w: nat, dst: Dst, stored: nat, ok: bool)
    | Abandon(w: nat)
    | Commit(w: nat, arrives: bool)
    | Finish(w: nat, arrives: bool)
    | Die(w: nat)

  /** INSERT IGNORE of one row, and of a list of rows. */
  function Insert(v2: Tables, o: Out): Tables {
    if (o.dst, o.key) in v2 then v2 else v2[(o.dst, o.key) := o.data]
  }

  function Store(v2: Tables, outs: seq<Out>): Tables {
    if outs == [] then v2 else Insert(Store(v2, outs[..|outs| - 1]), outs[|outs| - 1])
  }

  function AddTo(b: Buckets, o: Out): Buckets {
    b[o.dst := (if o.dst in b then b[o.dst] else []) + [o]]
  }

  /** The buckets `processBatch` builds; rows that do not transform are skipped. */
  function Bucketed(transform: Row -> Option<Out>, rows: seq<Row>): Buckets {
    if rows == [] then map[]
    else
      var b := Bucketed(transform, rows[..|rows| - 1]);
      match transform(rows[|rows| - 1])
      case None => b
      case Some(o) => AddTo(b, o)
  }

  function Progress(saved: map<Shard, int>, shard: Shard): int {
    if shard in saved then saved[shard] else 0
  }

  /** `Save` keeps the larger value. */
  function Advance(saved: map<Shard, int>, shard: Shard, pk: int): map<Shard, int> {
    saved[shard := if pk > Progress(saved, shard) then pk else Progress(saved, shard)]
  }

  function Every(m: Migration): nat
    ensures Every(m) > 0
  {
    if m.commitEvery <= 0 then 10 else m.commitEvery
  }

  /** What a scan after `tail` must return: the rows up to `maxPk`, and whether none is left. */
  ghost predicate IsScan(source: set<Row>, tail: int, rows: seq<Row>, maxPk: int, done: bool) {
    && (forall r :: r in rows <==> r in source && tail < r.pk <= maxPk)
    && (done ==> forall r | r in source :: r.pk <= maxPk)
  }

  ghost predicate Enabled(m: Migration, s: State, e: Event) {
    if e.Begin? then e.w !in s.workers && e.shard in m.source
    else
      e.w in s.workers &&
      var x := s.workers[e.w];
      match e
      case Scan(_, rows, maxPk, done) => x.Ready? && x.shard in m.source &&
        IsScan(m.source[x.shard], x.tail, rows, maxPk, done)
      case Write(_, dst, stored, ok) => x.Writing? && dst in x.buckets &&
        stored <= |x.buckets[dst]| && (ok ==> stored == |x.buckets[dst]|)
      case Abandon(_) => x.Writing?
      case Commit(_, _) => x.Writing? && x.buckets == map[]
      case Finish(_, _) => x.Ending?
      case _ => true
  }

  function Apply(m: Migration, s: State, e: Event): State {
    if e.Begin? then s.(workers := s.workers[e.w :=
                                     Ready(e.shard, if e.loaded then Progress(s.saved, e.shard) else 0, 0)])
    else if e.w !in s.workers then s
    else
      var x := s.workers[e.w];
      match e
      case Scan(w, rows, maxPk, done) =>
        if !x.Ready? then s
        else if rows != [] then
          s.(workers := s.workers[w := Writing(x.shard, x.tail, x.batches, maxPk, done, Bucketed(m.transform, rows))])
        else if done then s.(workers := s.workers[w := Ending(x.shard, x.tail)])
        else s
      case Write(w, dst, stored, ok) =>
        if !x.Writing? || dst !in x.buckets || stored > |x.buckets[dst]| then s
        else
          s.(v2 := Store(s.v2, x.buckets[dst][..stored]),
             workers := s.workers[w := if ok
                                then x.(buckets := x.buckets - {dst}) else Ready(x.shard, x.tail, x.batches)])
      case Abandon(w) => if x.Writing? then s.(workers := s.workers[w := Ready(x.shard, x.tail, x.batches)]) else s
      case Commit(w, arrives) =>
        if !x.Writing? then s
        else
          s.(saved := if (x.batches + 1) % Every(m) == 0 && arrives
                     then Advance(s.saved, x.shard, x.maxPk) else s.saved,
             workers := s.workers[w := if x.done then Ending(x.shard, x.maxPk)
                                else Ready(x.shard, x.maxPk, x.batches + 1)])
      case Finish(w, arrives) =>
        if !x.Ending? then s
        else s.(saved := if arrives then Advance(s.saved, x.shard, x.tail) else s.saved,
           workers := s.workers - {w}, finished := s.finished + {x.shard})
      case _ => s.(workers := s.workers - {e.w})
  }

  function ApplyAll(m: Migration, s: State, events: seq<Event>): State {
    if events == [] then s else Apply(m, ApplyAll(m, s, events[..|events| - 1]), events[|events| - 1])
  }

  ghost predicate Allowed(m: Migration, s: State, events: seq<Event>) {
    events == [] ||
    (Allowed(m, s, events[..|events| - 1]) && Enabled(m, ApplyAll(m, s, events[..|events| - 1]), events[|events| - 1]))
  }

  // ---------------------------------------------------------------- what the copy should be

  ghost predicate Moves(m: Migration, shard: Shard, r: Row, o: Out) {
    shard in m.source && r in m.source[shard] && m.transform(r) == Some(o)
  }

  /** The rows a migration that starts from key 0 has to produce. */
  ghost predicate InImage(m: Migration, o: Out) {
    exists shard, r :: Moves(m, shard, r, o) && r.pk > 0
  }

  /** Different source rows have different places in V2. */
  ghost predicate Separate(m: Migration) {
    forall shard, r, o, shard1, r1, o1 | Moves(m, shard, r, o) && Moves(m, shard1, r1, o1) &&
      o.dst == o1.dst && o.key == o1.key ::
      shard == shard1 && r == r1
  }

  predicate Present(v2: Tables, o: Out) {
    (o.dst, o.key) in v2 && v2[(o.dst, o.key)] == o.data
  }

  ghost predicate OnlyImage(m: Migration, v2: Tables) {
    forall k | k in v2 :: InImage(m, Out(k.0, k.1, v2[k]))
  }

  /** Every row of the shard up to `pk` that transforms is in V2. */
  ghost predicate Copied(m: Migration, v2: Tables, shard: Shard, pk: int) {
    forall r, o | Moves(m, shard, r, o) && 0 < r.pk <= pk :: Present(v2, o)
  }

  ghost predicate AllCopied(m: Migration, v2: Tables, shard: Shard) {
    forall r, o | Moves(m, shard, r, o) && 0 < r.pk :: Present(v2, o)
  }

  ghost predicate NothingAfter(m: Migration, shard: Shard, pk: int) {
    shard in m.source && forall r | r in m.source[shard] :: r.pk <= pk
  }

  ghost predicate Queued(b: Buckets, o: Out) {
    o.dst in b && o in b[o.dst]
  }

  ghost predicate BucketsInv(m: Migration, v2: Tables, shard: Shard, tail: int, maxPk: int, b: Buckets) {
    && (forall r, o | Moves(m, shard, r, o) && tail < r.pk <= maxPk :: Present(v2, o) || Queued(b, o))
    && (forall d, o | d in b && o in b[d] :: o.dst == d && InImage(m, o))
  }

  ghost predicate WorkerInv(m: Migration, v2: Tables, x: Worker) {
    && x.shard in m.source && x.tail >= 0 && Copied(m, v2, x.shard, x.tail)
    && (x.Writing? ==>
          && x.maxPk > x.tail && BucketsInv(m, v2, x.shard, x.tail, x.maxPk, x.buckets)
          && (x.done ==> NothingAfter(m, x.shard, x.maxPk)))
    && (x.Ending? ==> NothingAfter(m, x.shard, x.tail))
  }

  ghost predicate SavedInv(m: Migration, v2: Tables, saved: map<Shard, int>) {
    forall shard | shard in saved :: saved[shard] >= 0 && Copied(m, v2, shard, saved[shard])
  }

  ghost predicate Inv(m: Migration, s: State) {
    && OnlyImage(m, s.v2) && SavedInv(m, s.v2, s.saved)
    && (forall w | w in s.workers :: WorkerInv(m, s.v2, s.workers[w]))
    && (forall shard | shard in s.finished :: AllCopied(m, s.v2, shard))
  }

  // ---------------------------------------------------------------- buckets

  lemma {:induction false} BucketedHolds(transform: Row -> Option<Out>, rows: seq<Row>)
    ensures forall r, o | r in rows && transform(r) == Some(o) :: Queued(Bucketed(transform, rows), o)
    ensures forall d, o | d in Bucketed(transform, rows) && o in Bucketed(transform, rows)[d] ::
              o.dst == d && exists r :: r in rows && transform(r) == Some(o)
  {
    if rows != [] {
      var init, last := rows[..|rows| - 1], rows[|rows| - 1];
      BucketedHolds(transform, init);
      assert rows == init + [last];
      if transform(last).Some? { AddToHolds(Bucketed(transform, init), transform(last).value); }
    }
  }

  lemma AddToHolds(b: Buckets, o: Out)
    ensures forall x :: Queued(AddTo(b, o), x) <==> Queued(b, x) || x == o
    ensures forall d, x | d in AddTo(b, o) && x in AddTo(b, o)[d] :: (d in b && x in b[d]) || (d == o.dst && x == o)
  {
  }

  // ---------------------------------------------------------------- writes only add

  ghost predicate Grows(v2: Tables, after: Tables) {
    forall k | k in v2 :: k in after && after[k] == v2[k]
  }

  lemma SamePlaceSameRow(m: Migration, o: Out, o1: Out)
    requires Separate(m) && InImage(m, o) && InImage(m, o1) && o.dst == o1.dst && o.key == o1.key
    ensures o == o1
  {
    var shard, r :| Moves(m, shard, r, o) && r.pk > 0;
    var shard1, r1 :| Moves(m, shard1, r1, o1) && r1.pk > 0;
    assert r == r1;
  }

  lemma {:induction false} StoreKeeps(m: Migration, v2: Tables, outs: seq<Out>)
    requires Separate(m) && OnlyImage(m, v2) && forall o | o in outs :: InImage(m, o)
    ensures OnlyImage(m, Store(v2, outs)) && Grows(v2, Store(v2, outs))
    ensures forall o | o in outs :: Present(Store(v2, outs), o)
  {
    if outs != [] {
      var init, o := outs[..|outs| - 1], outs[|outs| - 1];
      assert outs == init + [o] && o in outs;
      StoreKeeps(m, v2, init);
      var v := Store(v2, init);
      if (o.dst, o.key) in v { SamePlaceSameRow(m, o, Out(o.dst, o.key, v[(o.dst, o.key)])); }
      assert InImage(m, Out(o.dst, o.key, o.data));
    }
  }

  lemma WorkerStays(m: Migration, v2: Tables, after: Tables, x: Worker)
    requires WorkerInv(m, v2, x) && Grows(v2, after)
    ensures WorkerInv(m, after, x)
  {
    forall o | Present(v2, o) ensures Present(after, o) {}
  }

  lemma GrowsKeeps(m: Migration, s: State, after: Tables)
    requires Inv(m, s) && Grows(s.v2, after) && OnlyImage(m, after)
    ensures Inv(m, s.(v2 := after))
  {
    forall w | w in s.workers ensures WorkerInv(m, after, s.workers[w]) {
      WorkerStays(m, s.v2, after, s.workers[w]);
    }
    forall o | Present(s.v2, o) ensures Present(after, o) {}
  }

  // ---------------------------------------------------------------- every event keeps the invariant

  lemma ScanKeeps(m: Migration, s: State, w: nat, rows: seq<Row>, maxPk: int, done: bool)
    requires Inv(m, s) && Enabled(m, s, Scan(w, rows, maxPk, done))
    ensures Inv(m, Apply(m, s, Scan(w, rows, maxPk, done)))
  {
    var x := s.workers[w];
    if rows != [] {
      assert rows[0] in rows;
      BucketedHolds(m.transform, rows);
      var b := Bucketed(m.transform, rows);
      forall d, o | d in b && o in b[d] ensures InImage(m, o) {
        var r :| r in rows && m.transform(r) == Some(o);
        assert Moves(m, x.shard, r, o) && r.pk > 0;
      }
    } else if done {
      forall r | r in m.source[x.shard] ensures r.pk <= x.tail {
        assert r !in rows;
      }
    }
  }

  lemma BucketDone(m: Migration, v2: Tables, shard: Shard, tail: int, maxPk: int, b: Buckets, dst: Dst)
    requires BucketsInv(m, v2, shard, tail, maxPk, b) && dst in b && forall o | o in b[dst] :: Present(v2, o)
    ensures BucketsInv(m, v2, shard, tail, maxPk, b - {dst})
  {
  }

  lemma WriteKeeps(m: Migration, s: State, w: nat, dst: Dst, stored: nat, ok: bool)
    requires Separate(m) && Inv(m, s) && Enabled(m, s, Write(w, dst, stored, ok))
    ensures Inv(m, Apply(m, s, Write(w, dst, stored, ok)))
  {
    var x := s.workers[w];
    var outs := x.buckets[dst][..stored];
    assert forall o | o in outs :: o in x.buckets[dst];
    StoreKeeps(m, s.v2, outs);
    GrowsKeeps(m, s, Store(s.v2, outs));
    var s1 := s.(v2 := Store(s.v2, outs));
    assert WorkerInv(m, s1.v2, s1.workers[w]);
    if ok {
      assert outs == x.buckets[dst];
      BucketDone(m, s1.v2, x.shard, x.tail, x.maxPk, x.buckets, dst);
    }
  }

  lemma SaveKeeps(m: Migration, v2: Tables, saved: map<Shard, int>, shard: Shard, pk: int)
    requires SavedInv(m, v2, saved) && Copied(m, v2, shard, pk) && pk >= 0
    ensures SavedInv(m, v2, Advance(saved, shard, pk))
  {
  }

  lemma CommitKeeps(m: Migration, s: State, w: nat, arrives: bool)
    requires Inv(m, s) && Enabled(m, s, Commit(w, arrives))
    ensures Inv(m, Apply(m, s, Commit(w, arrives)))
  {
    var x := s.workers[w];
    assert WorkerInv(m, s.v2, x);
    forall r, o | Moves(m, x.shard, r, o) && 0 < r.pk <= x.maxPk ensures Present(s.v2, o) {
      if r.pk > x.tail { assert !Queued(x.buckets, o); }
    }
    SaveKeeps(m, s.v2, s.saved, x.shard, x.maxPk);
  }

  lemma FinishKeeps(m: Migration, s: State, w: nat, arrives: bool)
    requires Inv(m, s) && Enabled(m, s, Finish(w, arrives))
    ensures Inv(m, Apply(m, s, Finish(w, arrives)))
  {
    var x := s.workers[w];
    assert WorkerInv(m, s.v2, x);
    SaveKeeps(m, s.v2, s.saved, x.shard, x.tail);
    assert AllCopied(m, s.v2, x.shard);
  }

  lemma StepKeeps(m: Migration, s: State, e: Event)
    requires Separate(m) && Inv(m, s) && Enabled(m, s, e)
    ensures Inv(m, Apply(m, s, e))
  {
    match e
    case Begin(_, _, _) =>
    case Scan(w, rows, maxPk, done) => ScanKeeps(m, s, w, rows, maxPk, done);
    case Write(w, dst, stored, ok) => WriteKeeps(m, s, w, dst, stored, ok);
    case Abandon(_) =>
    case Commit(w, arrives) => CommitKeeps(m, s, w, arrives);
    case Finish(w, arrives) => FinishKeeps(m, s, w, arrives);
    case Die(_) =>
  }

  lemma {:induction false} RunKeeps(m: Migration, s: State, events: seq<Event>)
    requires Separate(m) && Inv(m, s) && Allowed(m, s, events)
    ensures Inv(m, ApplyAll(m, s, events))
  {
    if events != [] {
      RunKeeps(m, s, events[..|events| - 1]);
      StepKeeps(m, ApplyAll(m, s, events[..|events| - 1]), events[|events| - 1]);
    }
  }

  // ---------------------------------------------------------------- the theorems

  /** Whatever crashed, failed or got lost, no saved checkpoint has passed a row that is not in V2,
      and V2 holds nothing but transformed rows. */
  lemma {:induction false} CheckpointIsSafe(m: Migration, events: seq<Event>, shard: Shard, r: Row, o: Out)
    requires Separate(m) && Allowed(m, EMPTY, events)
    ensures var s := ApplyAll(m, EMPTY, events);
            && (Moves(m, shard, r, o) && 0 < r.pk <= Progress(s.saved, shard) ==> Present(s.v2, o))
            && (Present(s.v2, o) ==> InImage(m, o))
  {
    RunKeeps(m, EMPTY, events);
  }

  /** Once every shard has been reported done, V2 holds exactly the transformed rows. */
  lemma {:induction false} DoneMeansComplete(m: Migration, events: seq<Event>, o: Out)
    requires Separate(m) && Allowed(m, EMPTY, events)
    requires m.source.Keys <= ApplyAll(m, EMPTY, events).finished
    ensures Present(ApplyAll(m, EMPTY, events).v2, o) <==> InImage(m, o)
  {
    RunKeeps(m, EMPTY, events);
    var s := ApplyAll(m, EMPTY, events);
    if InImage(m, o) {
      var shard, r :| Moves(m, shard, r, o) && r.pk > 0;
      assert AllCopied(m, s.v2, shard);
    }
  }

  /** A shard that has been reported done is complete, whatever the others do. */
  lemma {:induction false} DoneShardIsComplete(m: Migration, events: seq<Event>, shard: Shard, r: Row, o: Out)
    requires Separate(m) && Allowed(m, EMPTY, events)
    requires shard in ApplyAll(m, EMPTY, events).finished && Moves(m, shard, r, o) && r.pk > 0
    ensures Present(ApplyAll(m, EMPTY, events).v2, o)
  {
    RunKeeps(m, EMPTY, events);
    assert AllCopied(m, ApplyAll(m, EMPTY, events).v2, shard);
  }

  /** The first scan starts after key 0, so a finished migration has copied every row that
      transforms exactly if all their keys are positive. */
  lemma {:induction false} CompleteIffKeysArePositive(m: Migration, events: seq<Event>)
    requires Separate(m) && Allowed(m, EMPTY, events)
    requires m.source.Keys <= ApplyAll(m, EMPTY, events).finished
    ensures (forall shard, r, o | Moves(m, shard, r, o) :: Present(ApplyAll(m, EMPTY, events).v2, o))
            <==> (forall shard, r, o | Moves(m, shard, r, o) :: r.pk > 0)
  {
    var s := ApplyAll(m, EMPTY, events);
    forall shard, r, o | Moves(m, shard, r, o) ensures Present(s.v2, o) <==> r.pk > 0 {
      DoneMeansComplete(m, events, o);
      if InImage(m, o) {
        var shard1, r1 :| Moves(m, shard1, r1, o) && r1.pk > 0;
        assert r1 == r;
      } else {
        assert r.pk <= 0;
      }
    }
  }

  const ZERO_ROW := Row(0, "opening")
  const ZERO_SOURCE := Migration(map[(0, 0) := {ZERO_ROW}], (r: Row) => Some(Out((0, 0), r.data, r.data)), 1)

  /** The row with key 0 is never read, and the shard is reported done without it. */
  lemma RowZeroIsSkipped()
    ensures var events := [Begin(0, (0, 0), true), Scan(0, [], 0, true), Finish(0, true)];
            && Allowed(ZERO_SOURCE, EMPTY, events)
            && ApplyAll(ZERO_SOURCE, EMPTY, events).finished == {(0, 0)}
            && !Present(ApplyAll(ZERO_SOURCE, EMPTY, events).v2, Out((0, 0), "opening", "opening"))
  {
    var a, b, c := Begin(0, (0, 0), true), Scan(0, [], 0, true), Finish(0, true);
    assert [a, b, c][..2] == [a, b] && [a, b][..1] == [a] && [a][..0] == [];
    assert ApplyAll(ZERO_SOURCE, EMPTY, [a]).workers == map[0 := Ready((0, 0), 0, 0)];
    assert ApplyAll(ZERO_SOURCE, EMPTY, [a, b]).workers == map[0 := Ending((0, 0), 0)];
    assert Allowed(ZERO_SOURCE, EMPTY, []) && Allowed(ZERO_SOURCE, EMPTY, [a]);
    assert Allowed(ZERO_SOURCE, EMPTY, [a, b]);
  }

  /** A checkpoint never moves back. */
  lemma {:induction false} CheckpointOnlyAdvances(m: Migration, s: State, events: seq<Event>, shard: Shard)
    ensures Progress(s.saved, shard) <= Progress(ApplyAll(m, s, events).saved, shard)
  {
    if events != [] {
      CheckpointOnlyAdvances(m, s, events[..|events| - 1], shard);
    }
  }
}
