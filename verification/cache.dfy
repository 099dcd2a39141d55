/**
  The Redis cache in front of getSummary: a response is stored under the
  window's key for 30 seconds, and a request whose key is still alive gets the
  stored response back without any aggregation.
 */
module SummaryCache {
  import opened Wrappers
  import opened Runtime
  import opened InterfaceExecution
  import Filters
  import opened Summary

  /** `redis.set(key, value, "EX", 30)`: the entry lives for 30 seconds. */
  const TtlMs: int := 30 * 1000

  datatype CacheEntry = CacheEntry(payload: SummaryResult, expiresAt: Time)

  class Cache {
    /** The summary keys held by Redis; an entry whose time is up is treated as absent. */
    var entries: map<string, CacheEntry>

    constructor ()
      ensures entries == map[]
    {
      entries := map[];
    }

    /** `redis.get(key)` returns the stored text at time `now`. */
    predicate Alive(key: string, now: Time)
      reads this
    {
      key in entries && now < entries[key].expiresAt
    }

    /** Every stored response is the one the aggregation gives over `store` for its window. */
    ghost predicate Faithful(lib: Lib, store: seq<Execution>)
      reads this
    {
      FaithfulEntries(lib, store, entries)
    }

    /**
      getSummary: resolve the window; on a live entry return it; otherwise
      aggregate, store the response for 30 seconds and return it. While the
      executions do not change, the cache never alters a response.
     */
    method GetSummary(lib: Lib, store: seq<Execution>, q: SummaryParams, now: Time) returns (r: Result<SummaryResult, Failure>)
      modifies this
      ensures ResolveWindow(lib, q, now).Err? ==> r == Err(InvalidTime) && entries == old(entries)
      ensures ResolveWindow(lib, q, now).Ok? && old(Alive(CacheKey(lib, ResolveWindow(lib, q, now).value), now)) ==>
                r == Ok(old(entries)[CacheKey(lib, ResolveWindow(lib, q, now).value)].payload) && entries == old(entries)
      ensures ResolveWindow(lib, q, now).Ok? && !old(Alive(CacheKey(lib, ResolveWindow(lib, q, now).value), now)) ==>
                && r == Ok(ComputeSummary(lib, store, ResolveWindow(lib, q, now).value))
                && entries == old(entries)[CacheKey(lib, ResolveWindow(lib, q, now).value) := CacheEntry(r.value, now + TtlMs)]
      ensures Wf(lib) && old(Faithful(lib, store)) ==> r == SummaryResponse(lib, store, q, now) && Faithful(lib, store)
    {
      var window := ResolveWindow(lib, q, now);
      if window.Err? {
        return Err(window.error);
      }
      var w := window.value;
      var key := CacheKey(lib, w);
      if key in entries && now < entries[key].expiresAt {
        return Ok(entries[key].payload);
      }
      var result := ComputeSummary(lib, store, w);
      entries := entries[key := CacheEntry(result, now + TtlMs)];
      r := Ok(result);
      if Wf(lib) && old(Faithful(lib, store)) {
        WfKeysInjective(lib);
        StoreFaithful(lib, store, old(entries), w, now + TtlMs);
      }
    }
  }

  /** Every entry stored under a window's key holds the aggregation over `store` for that window. */
  ghost predicate FaithfulEntries(lib: Lib, store: seq<Execution>, entries: map<string, CacheEntry>)
  {
    forall w :: CacheKey(lib, w) in entries ==> entries[CacheKey(lib, w)].payload == ComputeSummary(lib, store, w)
  }

  /** No two windows share a cache key. */
  ghost predicate KeysInjective(lib: Lib)
  {
    forall w1, w2 :: CacheKey(lib, w1) == CacheKey(lib, w2) ==> w1 == w2
  }

  lemma WfKeysInjective(lib: Lib)
    requires Wf(lib)
    ensures KeysInjective(lib)
  {
    forall w1, w2 | CacheKey(lib, w1) == CacheKey(lib, w2) ensures w1 == w2 {
      CacheKeyInjective(lib, w1, w2);
    }
  }

  /** Storing a fresh aggregation under its window's key keeps every entry faithful, since keys are injective. */
  lemma StoreFaithful(lib: Lib, store: seq<Execution>, entries: map<string, CacheEntry>, w: Window, expiresAt: Time)
    requires KeysInjective(lib) && FaithfulEntries(lib, store, entries)
    ensures FaithfulEntries(lib, store, entries[CacheKey(lib, w) := CacheEntry(ComputeSummary(lib, store, w), expiresAt)])
  {
    var key := CacheKey(lib, w);
    var m := entries[key := CacheEntry(ComputeSummary(lib, store, w), expiresAt)];
    forall w' | CacheKey(lib, w') in m
      ensures m[CacheKey(lib, w')].payload == ComputeSummary(lib, store, w')
    {
      var k' := CacheKey(lib, w');
      if k' == key {
        assert w' == w;
      } else {
        assert m[k'] == entries[k'];
      }
    }
  }

  /**
    A request without `end` takes the current time as its end, so two such
    requests made at different milliseconds never share a cache entry.
   */
  lemma DefaultEndKeys(lib: Lib, q: SummaryParams, now1: Time, now2: Time)
    requires Wf(lib)
    requires !Filters.Truthy(q.end) && now1 != now2
    requires ResolveWindow(lib, q, now1).Ok? && ResolveWindow(lib, q, now2).Ok?
    ensures CacheKey(lib, ResolveWindow(lib, q, now1).value) != CacheKey(lib, ResolveWindow(lib, q, now2).value)
  {
    if CacheKey(lib, ResolveWindow(lib, q, now1).value) == CacheKey(lib, ResolveWindow(lib, q, now2).value) {
      CacheKeyInjective(lib, ResolveWindow(lib, q, now1).value, ResolveWindow(lib, q, now2).value);
    }
  }
}
