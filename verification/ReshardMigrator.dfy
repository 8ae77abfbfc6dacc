/** `MemCheckpoint` and `Migrator.runShard`, statement by statement: a call is an allowed run of
    Reshard from wherever the other workers have left the tables. */
module ReshardMigrator {
  import opened Prelude
  import opened Reshard

  datatype Entry = Entry(lastPk: int, total: int)

  function Max(a: int, b: int): int { if a > b then a else b }

  class MemCheckpoint {
    var data: map<string, map<Shard, Entry>>

    constructor ()
      ensures data == map[]
    {
      data := map[];
    }

    function Find(table: string, shard: Shard): Entry
      reads this
    {
      if table in data && shard in data[table] then data[table][shard] else Entry(0, 0)
    }

    ghost function Saved(table: string): map<Shard, int>
      reads this
    {
      if table in data then map shard | shard in data[table] :: data[table][shard].lastPk else map[]
    }

    method Save(table: string, shard: Shard, lastPk: int, total: int)
      modifies this
      ensures Saved(table) == Advance(old(Saved(table)), shard, lastPk)
      ensures Find(table, shard) == Entry(Max(lastPk, old(Find(table, shard)).lastPk),
                                      Max(total, old(Find(table, shard)).total))
      ensures data == old(data)[table := (if table in old(data) then old(data)[table] else map[])
              [shard := Find(table, shard)]]
    {
      var tbl := if table in data then data[table] else map[];
      var cur := if shard in tbl then tbl[shard] else Entry(0, 0);
      if lastPk > cur.lastPk { cur := cur.(lastPk := lastPk); }
      if total > cur.total { cur := cur.(total := total); }
      data := data[table := tbl[shard := cur]];
    }

    method Load(table: string, shard: Shard) returns (lastPk: int, total: int)
      ensures lastPk == Progress(Saved(table), shard) && Entry(lastPk, total) == Find(table, shard)
    {
      if table !in data { return 0, 0; }
      var e := if shard in data[table] then data[table][shard] else Entry(0, 0);
      return e.lastPk, e.total;
    }
  }

  /** What one pass through the loop of `runShard` meets: a pause, a failing scan, or a scan up to
      some key followed by writes that store the first rows of a bucket and may report failure, and
      by checkpoint writes that may be lost. */
  datatype WriteResult = WriteResult(stored: nat, ok: bool)
  datatype Round =
    | Paused
    | ScanFails
    | Batch(upTo: int, limiterOk: bool, writes: Dst -> WriteResult, saveArrives: bool, lastSaveArrives: bool)

  /** `s` lies on an allowed run from `s0`. */
  ghost predicate Reaches(m: Migration, s0: State, s: State) {
    exists events :: Allowed(m, s0, events) && ApplyAll(m, s0, events) == s
  }

  ghost function ReachableFrom(m: Migration, s0: State): iset<State> {
    iset s | Reaches(m, s0, s)
  }

  /** A set of states that no allowed event leaves. */
  ghost predicate Closed(m: Migration, on: iset<State>) {
    forall s, e {:trigger Apply(m, s, e)} :: s in on && Enabled(m, s, e) ==> Apply(m, s, e) in on
  }

  lemma Stays(m: Migration, on: iset<State>, s: State, e: Event, next: State)
    requires Closed(m, on) && s in on && Enabled(m, s, e) && next == Apply(m, s, e)
    ensures next in on
  {
  }

  lemma ReachableIsClosed(m: Migration, s0: State)
    ensures Closed(m, ReachableFrom(m, s0)) && s0 in ReachableFrom(m, s0)
  {
    assert Allowed(m, s0, []) && ApplyAll(m, s0, []) == s0;
    forall s, e | Reaches(m, s0, s) && Enabled(m, s, e) ensures Reaches(m, s0, Apply(m, s, e)) {
      var events :| Allowed(m, s0, events) && ApplyAll(m, s0, events) == s;
      assert (events + [e])[..|events|] == events;
      assert Allowed(m, s0, events + [e]) && ApplyAll(m, s0, events + [e]) == Apply(m, s, e);
    }
  }

  // ---------------------------------------------------------------- what a round achieves

  lemma {:induction false} BucketKeys(transform: Row -> Option<Out>, rows: seq<Row>, d: Dst)
    ensures d in Bucketed(transform, rows) <==> exists r :: r in rows && GoesTo(transform, r, d)
  {
    if rows != [] {
      var init, last := rows[..|rows| - 1], rows[|rows| - 1];
      BucketKeys(transform, init, d);
      assert last in rows && rows == init + [last];
      assert d in Bucketed(transform, rows) <==> d in Bucketed(transform, init) || GoesTo(transform, last, d);
      if r :| r in init && GoesTo(transform, r, d) { assert r in rows; }
    }
  }

  predicate GoesTo(transform: Row -> Option<Out>, r: Row, d: Dst) {
    transform(r).Some? && transform(r).value.dst == d
  }

  function Only(b: Buckets, ds: set<Dst>): Buckets {
    map d | d in ds && d in b :: b[d]
  }

  lemma OnlyWithout(b: Buckets, ds: set<Dst>, d: Dst)
    ensures Only(b, ds) - {d} == Only(b, ds - {d})
  {
  }

  /** The limiter agrees, and so does every write of a row between `tail` and the end of the scan. */
  ghost predicate BatchWorks(m: Migration, shard: Shard, tail: int, round: Round)
    requires shard in m.source && round.Batch?
  {
    round.limiterOk
    && forall r, d | Scanned(m, shard, tail, round.upTo, r) && GoesTo(m.transform, r, d) :: round.writes(d).ok
  }

  ghost predicate Scanned(m: Migration, shard: Shard, tail: int, upTo: int, r: Row)
    requires shard in m.source
  {
    r in m.source[shard] && tail < r.pk <= upTo
  }

  ghost predicate Idle(m: Migration, shard: Shard, tail: int, upTo: int)
    requires shard in m.source
  {
    forall r :: !Scanned(m, shard, tail, upTo, r)
  }

  /** The round moves the worker on: there are rows, and all of them are written. */
  ghost predicate Copies(m: Migration, shard: Shard, tail: int, round: Round)
    requires shard in m.source
  {
    round.Batch? && !Idle(m, shard, tail, round.upTo) && BatchWorks(m, shard, tail, round)
  }

  ghost function TailAfter(m: Migration, shard: Shard, tail: int, round: Round): int
    requires shard in m.source
  {
    if Copies(m, shard, tail, round) then round.upTo else tail
  }

  /** The round ends the shard: its scan finds the last row, or nothing is left to copy. */
  ghost predicate Ends(m: Migration, shard: Shard, tail: int, round: Round)
    requires shard in m.source
  {
    && round.Batch? && NothingAfter(m, shard, round.upTo)
    && (Idle(m, shard, tail, round.upTo) || BatchWorks(m, shard, tail, round))
  }

  /** Some round of the script ends the shard. */
  ghost predicate ScriptEnds(m: Migration, shard: Shard, tail: int, script: seq<Round>)
    requires shard in m.source
    decreases |script|
  {
    script != [] &&
    (Ends(m, shard, tail, script[0]) || ScriptEnds(m, shard, TailAfter(m, shard, tail, script[0]), script[1..]))
  }

  /** A round up to the last key of the shard in which limiter and writes succeed. */
  ghost predicate Sweeps(m: Migration, shard: Shard, round: Round)
    requires shard in m.source
  {
    && round.Batch? && NothingAfter(m, shard, round.upTo) && round.limiterOk
    && forall r, d | r in m.source[shard] && GoesTo(m.transform, r, d) :: round.writes(d).ok
  }

  /** Such a round ends the shard, wherever in the script it comes and whatever failed before. */
  lemma {:induction false} SweepingEnds(m: Migration, shard: Shard, tail: int, script: seq<Round>, i: nat)
    requires shard in m.source && i < |script| && Sweeps(m, shard, script[i])
    ensures ScriptEnds(m, shard, tail, script)
    decreases i
  {
    if i > 0 {
      SweepingEnds(m, shard, TailAfter(m, shard, tail, script[0]), script[1..], i - 1);
    }
  }

  /** And no shard ends without a scan that finds its last row. */
  lemma {:induction false} EndsOnlyAtLast(m: Migration, shard: Shard, tail: int, script: seq<Round>) returns (i: nat)
    requires shard in m.source && ScriptEnds(m, shard, tail, script)
    ensures i < |script| && script[i].Batch? && NothingAfter(m, shard, script[i].upTo)
    decreases |script|
  {
    i := 0;
    if !Ends(m, shard, tail, script[0]) {
      i := EndsOnlyAtLast(m, shard, TailAfter(m, shard, tail, script[0]), script[1..]);
      i := i + 1;
    }
  }

  class Migrator {
    const spec: Migration
    const name: string
    const cp: MemCheckpoint
    var v2: Tables
    var totalRows: nat
    var batchesOk: nat
    var batchesFail: nat
    var shardDone: nat
    ghost var workers: map<nat, Worker>
    ghost var finished: set<Shard>

    constructor (spec: Migration, name: string, cp: MemCheckpoint)
      requires cp.Saved(name) == map[]
      ensures this.spec == spec && this.name == name && this.cp == cp && Now() == EMPTY
    {
      this.spec, this.name, this.cp := spec, name, cp;
      v2, totalRows, batchesOk, batchesFail, shardDone, workers, finished := map[], 0, 0, 0, 0, map[], {};
    }

    ghost function Now(): State
      reads this, cp
    {
      State(v2, cp.Saved(name), workers, finished)
    }

    /** A scan that honours the contract of `ScanV1`. */
    method ScanV1(shard: Shard, lastPk: int, upTo: int) returns (rows: seq<Row>, maxPk: int, done: bool)
      requires shard in spec.source
      ensures IsScan(spec.source[shard], lastPk, rows, maxPk, done)
      ensures maxPk == upTo && (done <==> NothingAfter(spec, shard, upTo))
    {
      rows, maxPk, done := [], upTo, true;
      var rest := spec.source[shard];
      while rest != {}
        invariant rest <= spec.source[shard]
        invariant forall r :: r in rows <==> r in spec.source[shard] - rest && lastPk < r.pk <= upTo
        invariant done <==> forall r | r in spec.source[shard] - rest :: r.pk <= upTo
        decreases |rest|
      {
        var r :| r in rest;
        rest := rest - {r};
        if r.pk > upTo { done := false; }
        else if r.pk > lastPk { rows := rows + [r]; }
      }
    }

    /** INSERT IGNORE, stopping after `stored` rows. */
    method WriteV2(rows: seq<Out>, stored: nat)
      requires stored <= |rows|
      modifies this`v2
      ensures v2 == Store(old(v2), rows[..stored])
    {
      var i := 0;
      while i < stored
        invariant i <= stored && v2 == Store(old(v2), rows[..i])
      {
        if (rows[i].dst, rows[i].key) !in v2 { v2 := v2[(rows[i].dst, rows[i].key) := rows[i].data]; }
        assert rows[..i + 1][..i] == rows[..i];
        i := i + 1;
      }
    }

    method SortIntoBuckets(rows: seq<Row>) returns (buckets: Buckets)
      ensures buckets == Bucketed(spec.transform, rows)
    {
      buckets := map[];
      var i := 0;
      while i < |rows|
        invariant i <= |rows| && buckets == Bucketed(spec.transform, rows[..i])
      {
        assert rows[..i + 1][..i] == rows[..i];
        match spec.transform(rows[i]) {
          case None =>
          case Some(o) => buckets := buckets[o.dst := (if o.dst in buckets then buckets[o.dst] else []) + [o]];
        }
        i := i + 1;
      }
      assert rows[..i] == rows;
    }

    /** One bucket's write by worker `w`. */
    method WriteBucket(ghost w: nat, dst: Dst, rows: seq<Out>, result: WriteResult, ghost on: iset<State>)
      returns (ok: bool)
      requires w in workers && workers[w].Writing? && dst in workers[w].buckets && workers[w].buckets[dst] == rows
      requires Closed(spec, on) && Now() in on
      modifies this`v2, this`workers
      ensures Now() in on && ok == result.ok
      ensures v2 == Store(old(v2), if ok || result.stored > |rows| then rows else rows[..result.stored])
      ensures var x := old(workers)[w];
              workers == old(workers)[w := if ok then x.(buckets := x.buckets - {dst})
                      else Ready(x.shard, x.tail, x.batches)]
    {
      ok := result.ok;
      var stored := if ok || result.stored > |rows| then |rows| else result.stored;
      WriteV2(rows, stored);
      assert rows[..|rows|] == rows;
      var x := workers[w];
      workers := workers[w := if ok then x.(buckets := x.buckets - {dst}) else Ready(x.shard, x.tail, x.batches)];
      Stays(spec, on, old(Now()), Event.Write(w, dst, stored, ok), Now());
    }

    /** `processBatch`: every bucket is written, in any order, until a write fails. It succeeds exactly if
        the limiter agrees and every write succeeds. */
    method ProcessBatch(ghost w: nat, rows: seq<Row>, limiterOk: bool, writes: Dst -> WriteResult,
                        ghost on: iset<State>) returns (ok: bool)
      requires w in workers && workers[w].Writing? && workers[w].buckets == Bucketed(spec.transform, rows)
      requires Closed(spec, on) && Now() in on
      modifies this`v2, this`workers
      ensures Now() in on
      ensures ok == (limiterOk && forall d | d in Bucketed(spec.transform, rows) :: writes(d).ok)
      ensures !limiterOk ==> v2 == old(v2)
      ensures var x := old(workers)[w];
              workers == old(workers)[w := if ok then x.(buckets := map[]) else Ready(x.shard, x.tail, x.batches)]
    {
      ghost var x := workers[w];
      if !limiterOk {
        workers := workers[w := Ready(x.shard, x.tail, x.batches)];
        Stays(spec, on, old(Now()), Abandon(w), Now());
        return false;
      }
      var buckets := SortIntoBuckets(rows);
      ok := WriteAll(w, buckets, writes, on);
    }

    method WriteAll(ghost w: nat, buckets: Buckets, writes: Dst -> WriteResult, ghost on: iset<State>)
      returns (ok: bool)
      requires w in workers && workers[w].Writing? && workers[w].buckets == buckets
      requires Closed(spec, on) && Now() in on
      modifies this`v2, this`workers
      ensures Now() in on && ok == forall d | d in buckets :: writes(d).ok
      ensures var x := old(workers)[w];
              workers == old(workers)[w := if ok then x.(buckets := map[]) else Ready(x.shard, x.tail, x.batches)]
    {
      ghost var x := workers[w];
      var rest := buckets.Keys;
      assert Only(buckets, rest) == buckets;
      while rest != {}
        invariant Now() in on && rest <= buckets.Keys && forall d | d in buckets.Keys - rest :: writes(d).ok
        invariant workers == old(workers)[w := x.(buckets := Only(buckets, rest))]
        decreases |rest|
      {
        var d :| d in rest;
        var written := WriteBucket(w, d, buckets[d], writes(d), on);
        if !written { return false; }
        OnlyWithout(buckets, rest, d);
        rest := rest - {d};
      }
      return true;
    }

    /** A checkpoint write, which may be lost. */
    method Checkpoint(shard: Shard, tail: int, arrives: bool)
      modifies cp
      ensures cp.Saved(name) == if arrives then Advance(old(cp.Saved(name)), shard, tail) else old(cp.Saved(name))
    {
      if arrives { cp.Save(name, shard, tail, totalRows); }
    }

    /** Bookkeeping after a batch has been written. */
    method CommitBatch(ghost w: nat, shard: Shard, rows: seq<Row>, maxPk: int, batches0: nat, arrives: bool,
                       ghost on: iset<State>)
      returns (batches: nat)
      requires w in workers && workers[w].Writing? && workers[w].buckets == map[]
      requires workers[w].shard == shard && workers[w].maxPk == maxPk && workers[w].batches == batches0
      requires Closed(spec, on) && Now() in on
      modifies this`workers, this`totalRows, this`batchesOk, cp
      ensures Now() in on && batches == batches0 + 1
      ensures workers == old(workers)[w := if old(workers)[w].done then Ending(shard, maxPk)
                      else Ready(shard, maxPk, batches)]
      ensures totalRows == old(totalRows) + |rows| && batchesOk == old(batchesOk) + 1
      ensures cp.Saved(name) == if batches % Every(spec) == 0 && arrives then Advance(old(cp.Saved(name)), shard, maxPk)
                                else old(cp.Saved(name))
    {
      batchesOk, totalRows := batchesOk + 1, totalRows + |rows|;
      batches := batches0 + 1;
      if batches % Every(spec) == 0 { Checkpoint(shard, maxPk, arrives); }
      workers := workers[w := if workers[w].done then Ending(shard, maxPk) else Ready(shard, maxPk, batches)];
      Stays(spec, on, old(Now()), Commit(w, arrives), Now());
    }

    /** The end of a shard: the last checkpoint write. */
    method EndShard(ghost w: nat, shard: Shard, tail: int, arrives: bool, ghost on: iset<State>)
      requires w in workers && workers[w] == Ending(shard, tail)
      requires Closed(spec, on) && Now() in on
      modifies this`workers, this`finished, this`shardDone, cp
      ensures Now() in on
      ensures workers == old(workers) - {w} && finished == old(finished) + {shard} && shardDone == old(shardDone) + 1
      ensures cp.Saved(name) == if arrives then Advance(old(cp.Saved(name)), shard, tail) else old(cp.Saved(name))
    {
      Checkpoint(shard, tail, arrives);
      shardDone := shardDone + 1;
      workers, finished := workers - {w}, finished + {shard};
      Stays(spec, on, old(Now()), Finish(w, arrives), Now());
    }

    /** Transform, write and commit one scanned batch; a failed batch leaves the worker where it
        was. */
    method RunBatch(ghost w: nat, shard: Shard, rows: seq<Row>, maxPk: int, last: bool, tail: int, batches0: nat,
                    round: Round,
                    ghost on: iset<State>)
      returns (ok: bool, batches: nat)
      requires w in workers && workers[w] == Ready(shard, tail, batches0) && round.Batch? && rows != []
      requires shard in spec.source && IsScan(spec.source[shard], tail, rows, maxPk, last)
      requires Closed(spec, on) && Now() in on && maxPk == round.upTo
      modifies this`v2, this`workers, this`totalRows, this`batchesOk, this`batchesFail, cp
      ensures Now() in on && ok == BatchWorks(spec, shard, tail, round)
      ensures batches == if ok then batches0 + 1 else batches0
      ensures cp.Saved(name) == if ok && batches % Every(spec) == 0 && round.saveArrives
                                then Advance(old(cp.Saved(name)), shard, maxPk) else old(cp.Saved(name))
      ensures ok ==> workers == old(workers)[w := if last then Ending(shard, maxPk) else Ready(shard, maxPk, batches)]
      ensures !ok ==> workers == old(workers) && batches == batches0
    {
      workers := workers[w := Writing(shard, tail, batches0, maxPk, last, Bucketed(spec.transform, rows))];
      Stays(spec, on, old(Now()), Event.Scan(w, rows, maxPk, last), Now());
      BatchWorksIff(shard, rows, tail, round);
      ok := ProcessBatch(w, rows, round.limiterOk, round.writes, on);
      if ok {
        batches := CommitBatch(w, shard, rows, maxPk, batches0, round.saveArrives, on);
      } else {
        batchesFail, batches := batchesFail + 1, batches0;
      }
    }

    lemma BatchWorksIff(shard: Shard, rows: seq<Row>, tail: int, round: Round)
      requires shard in spec.source && round.Batch?
      requires forall r :: r in rows <==> Scanned(spec, shard, tail, round.upTo, r)
      ensures BatchWorks(spec, shard, tail, round)
              <==> round.limiterOk && forall d | d in Bucketed(spec.transform, rows) :: round.writes(d).ok
    {
      forall d ensures d in Bucketed(spec.transform, rows) <==> exists r :: r in rows && GoesTo(spec.transform, r, d) {
        BucketKeys(spec.transform, rows, d);
      }
    }

    /** One pass through the loop of `runShard`. */
    method Pass(ghost w: nat, shard: Shard, tail0: int, batches0: nat, round: Round, ghost on: iset<State>)
      returns (tail: int, batches: nat, done: bool)
      requires shard in spec.source && w in workers && workers[w] == Ready(shard, tail0, batches0)
      requires Closed(spec, on) && Now() in on
      modifies this, cp
      ensures Now() in on && done == Ends(spec, shard, tail0, round) && tail == TailAfter(spec, shard, tail0, round)
      ensures batches == if Copies(spec, shard, tail0, round) then batches0 + 1 else batches0
      ensures done && round.lastSaveArrives ==>
                tail <= Progress(cp.Saved(name), shard) && NothingAfter(spec, shard, tail)
      ensures !done ==> workers == old(workers)[w := Ready(shard, tail, batches)]
      ensures !done ==> finished == old(finished) && shardDone == old(shardDone)
      ensures done ==>
                workers == old(workers) - {w} && finished == old(finished) + {shard} && shardDone == old(shardDone) + 1
    {
      tail, batches, done := tail0, batches0, false;
      if round.Paused? { return; }
      if round.ScanFails? { batchesFail := batchesFail + 1; return; }
      var rows, maxPk, last := ScanV1(shard, tail, round.upTo);
      assert Idle(spec, shard, tail0, round.upTo) <==> rows == [] by {
        if rows != [] { assert rows[0] in rows && Scanned(spec, shard, tail0, round.upTo, rows[0]); }
      }
      if rows != [] {
        var ok;
        ok, batches := RunBatch(w, shard, rows, maxPk, last, tail, batches, round, on);
        if !ok { return; }
        tail := maxPk;
      } else if last {
        workers := workers[w := Ending(shard, tail)];
        Stays(spec, on, old(Now()), Event.Scan(w, rows, maxPk, last), Now());
      }
      if last {
        EndShard(w, shard, tail, round.lastSaveArrives, on);
        done := true;
      }
    }

    /** `runShard` by worker `w`. `loaded` says whether the checkpoint could be read; when `script`
        is used up the worker is stopped or killed. */
    method RunShard(ghost w: nat, shard: Shard, loaded: bool, script: seq<Round>) returns (done: bool)
      requires shard in spec.source && w !in workers
      modifies this, cp
      ensures Reaches(spec, old(Now()), Now()) && workers == old(workers)
      ensures done == ScriptEnds(spec, shard, if loaded then Progress(old(cp.Saved(name)), shard) else 0, script)
      ensures done && (forall i | 0 <= i < |script| && script[i].Batch? :: script[i].lastSaveArrives) ==>
                NothingAfter(spec, shard, Progress(cp.Saved(name), shard))
      ensures finished == old(finished) + (if done then {shard} else {})
      ensures shardDone == old(shardDone) + if done then 1 else 0
    {
      ghost var on := ReachableFrom(spec, Now());
      ReachableIsClosed(spec, Now());
      var tail := 0;
      if loaded {
        var pk, _ := cp.Load(name, shard);
        tail := pk;
      }
      workers := workers[w := Ready(shard, tail, 0)];
      Stays(spec, on, old(Now()), Begin(w, shard, loaded), Now());
      done := Loop(w, shard, tail, script, on);
    }

    method Loop(ghost w: nat, shard: Shard, tail0: int, script: seq<Round>, ghost on: iset<State>) returns (done: bool)
      requires shard in spec.source && w in workers && workers[w] == Ready(shard, tail0, 0)
      requires Closed(spec, on) && Now() in on
      modifies this, cp
      ensures Now() in on && workers == old(workers) - {w} && done == ScriptEnds(spec, shard, tail0, script)
      ensures done && (forall i | 0 <= i < |script| && script[i].Batch? :: script[i].lastSaveArrives) ==>
                NothingAfter(spec, shard, Progress(cp.Saved(name), shard))
      ensures finished == old(finished) + (if done then {shard} else {})
      ensures shardDone == old(shardDone) + if done then 1 else 0
    {
      var tail, batches, i := tail0, 0, 0;
      while i < |script|
        invariant Now() in on && finished == old(finished) && shardDone == old(shardDone)
        invariant workers == old(workers)[w := Ready(shard, tail, batches)] && i <= |script|
        invariant ScriptEnds(spec, shard, tail0, script) == ScriptEnds(spec, shard, tail, script[i..])
      {
        assert script[i..][1..] == script[i + 1..];
        tail, batches, done := Pass(w, shard, tail, batches, script[i], on);
        if done { return; }
        i := i + 1;
      }
      ghost var before := Now();
      workers := workers - {w};
      Stays(spec, on, before, Die(w), Now());
      return false;
    }
  }

  /** What any sequence of runs adds up to: from empty tables, every reachable state keeps the
      invariant behind the theorems of Reshard. */
  lemma ReachableIsSafe(m: Migration, s: State)
    requires Separate(m) && Reaches(m, EMPTY, s)
    ensures Inv(m, s)
  {
    var events :| Allowed(m, EMPTY, events) && ApplyAll(m, EMPTY, events) == s;
    RunKeeps(m, EMPTY, events);
  }
}
