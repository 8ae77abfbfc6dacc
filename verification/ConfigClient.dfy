/** `Client` of packages/payment-util/configcenter/client.go: the cache kept in place, the loops that
    copy it, and the notifications that go out with each change. */
module ConfigClient {
  import opened Prelude
  import opened ConfigCache

  /** A tick at `now` makes `v` the active value of key `k`. */
  predicate Promotes(entries: map<string, Entry>, k: string, v: Value, now: int) {
    k in entries && entries[k].pending == Some(v) && IsEffective(v, now)
  }

  class Client {
    var cache: Cache
    var maxVersion: int

    constructor ()
      ensures cache == None && maxVersion == 0
    {
      cache, maxVersion := None, 0;
    }

    method Get(key: string, now: int) returns (answer: Answer)
      ensures answer == ConfigCache.Get(cache, now, key)
    {
      if cache.None? { return NotFound; }
      var snap := cache.value;
      if key in snap.entries {
        var e := snap.entries[key];
        if e.pending.Some? && IsEffective(e.pending.value, now) { return Found(e.pending.value); }
        if e.active.Some? && IsEffective(e.active.value, now) { return Found(e.active.value); }
      }
      if snap.fallback.Some? && key in snap.fallback.value.entries {
        var fe := snap.fallback.value.entries[key];
        if fe.active.Some? && IsEffective(fe.active.value, now) { return Found(fe.active.value); }
      }
      return NotEffective;
    }

    /** `maybeSwap`. Each promoted key is notified once, with the value that becomes active. */
    method MaybeSwap(now: int) returns (fired: seq<(string, Value)>)
      modifies this`cache
      ensures cache == Apply(old(cache), Tick(now))
      ensures forall k, v :: (k, v) in fired <==> Promotes(Entries(old(cache)), k, v, now)
      ensures forall i, j | 0 <= i < j < |fired| :: fired[i].0 != fired[j].0
    {
      fired := [];
      if cache.None? { return; }
      var entries := cache.value.entries;
      var copy: map<string, Entry> := map[];
      var rest := entries.Keys;
      while rest != {}
        invariant rest <= entries.Keys && copy.Keys == entries.Keys - rest
        invariant forall k | k in copy :: copy[k] == Promote(entries[k], now)
        invariant forall k, v :: (k, v) in fired <==> k in copy && Promotes(entries, k, v, now)
        invariant fired == [] ==> forall k | k in copy :: !Due(entries[k].pending, now)
        invariant forall i | 0 <= i < |fired| :: fired[i].0 in copy
        invariant forall i, j | 0 <= i < j < |fired| :: fired[i].0 != fired[j].0
        decreases |rest|
      {
        var k :| k in rest;
        rest := rest - {k};
        var e := entries[k];
        if e.pending.Some? && IsEffective(e.pending.value, now) {
          copy := copy[k := Entry(e.pending, None)];
          fired := fired + [(k, e.pending.value)];
        } else {
          copy := copy[k := e];
        }
      }
      if fired == [] { return; }
      assert fired[0] in fired && (fired[0].0, fired[0].1) == fired[0];
      assert AnyDue(cache.value, now);
      assert copy == map k | k in entries :: Promote(entries[k], now);
      cache := Some(Snapshot(copy, cache));
    }

    /** `onEvent` for an update. Only a value that takes effect at once is notified. */
    method OnUpdate(v: Value, now: int) returns (fired: bool)
      modifies this
      ensures cache == Apply(old(cache), Push(v, now))
      ensures fired <==> IsEffective(v, now)
      ensures fired ==> ConfigCache.Get(cache, now, v.key) == Found(v)
      ensures maxVersion >= old(maxVersion) && maxVersion >= v.version && maxVersion in {old(maxVersion), v.version}
    {
      var entries := Entries(cache);
      var prev := if v.key in entries then entries[v.key] else Entry(None, None);
      var next := prev;
      if IsEffective(v, now) {
        next := Entry(Some(v), None);
      } else if v.effectiveAt.Some? && v.effectiveAt.value > now {
        next := Entry(prev.active, Some(v));
      }
      cache := Some(Snapshot(entries[v.key := next], cache));
      if v.version > maxVersion { maxVersion := v.version; }
      return IsEffective(v, now);
    }

    /** `onEvent` for a deletion; the version counter does not move. */
    method OnDelete(v: Value, now: int)
      modifies this`cache
      ensures cache == Apply(old(cache), Delete(v, now))
    {
      cache := Some(Snapshot(Entries(cache) - {v.key}, cache));
    }
  }
}
