/** The background script's state and operations: the usage ledger as
    persisted in the extension's local storage, the blob cache of resource
    bytes, the paired cache operations, the eviction sweep, and the routing
    of the three message actions. */
module Background {
  import opened Ledger
  import opened Eviction
  import opened Chunking

  /** The cache budget: 50 MiB. */
  const MAX_CACHE_SIZE: int := 50 * 1024 * 1024

  datatype CacheError =
    | NotCached    // the blob cache has no entry for the url
    | PutRejected  // the blob cache refused to store the bytes

  datatype Outcome = Pass | Fail(error: CacheError)

  datatype Result<T> = Ok(value: T) | Err(error: CacheError)

  /** A runtime message: the action name and the fields the actions read. */
  datatype Message = Message(action: string, url: string, data: seq<byte>)

  /** What the listener sends back: `{ success: true, data }`,
      `{ success: false, error }`, or nothing for an unknown action. */
  datatype Reply = Succeeded(data: Option<seq<byte>>) | Failed(error: CacheError) | NoReply

  /** Removing keys one more at a time. */
  lemma MinusStep<V>(m: map<string, V>, gone: set<string>, k: string)
    ensures m - gone - {k} == m - (gone + {k})
  {
  }

  class BackgroundCache {
    /** The `cacheUsage` entry of local storage; `None` until first written. */
    var stored: Option<Usage>
    /** The blob cache: the bytes of each cached response, by url. */
    var blobs: map<string, seq<byte>>

    /** A fresh installation: nothing persisted, nothing cached. */
    constructor ()
      ensures stored == None && blobs == map[]
    {
      stored := None;
      blobs := map[];
    }

    /** The ledger as a read of local storage returns it. */
    function Snapshot(): (u: Usage)
      reads this
    {
      if stored.Some? then stored.value else EMPTY_USAGE
    }

    /** The ledger tracks exactly the urls the blob cache holds. Both stores are
        keyed by the url string here; see README for how the browser differs. */
    ghost predicate Consistent()
      reads this
    {
      blobs.Keys == Snapshot().resources.Keys
    }

    /** Reads the ledger; an absent entry reads as an empty ledger. */
    method GetCacheUsage() returns (u: Usage)
      ensures stored.None? ==> u == Usage(0, map[])
      ensures stored.Some? ==> u == stored.value
    {
      match stored
      case None => u := EMPTY_USAGE;
      case Some(v) => u := v;
    }

    /** Records a write of `size` bytes under `url` at time `now` and
      recomputes the total over all records. */
    method UpdateCacheUsage(url: string, size: nat, now: int)
      modifies this
      ensures stored == Some(Write(old(Snapshot()), url, size, now))
      ensures blobs == old(blobs)
    {
      var usage := GetCacheUsage();
      var resources := usage.resources[url := UsageRecord(size, now)];
      var total := SumOfSizes(resources);
      stored := Some(Usage(total, resources));
    }

    /** Refreshes the access time of a recorded url; an unknown url is left
      alone and nothing is persisted. */
    method UpdateResourceAccessTime(url: string, now: int)
      modifies this
      ensures url in old(Snapshot()).resources ==> stored == Some(Touch(old(Snapshot()), url, now))
      ensures url !in old(Snapshot()).resources ==> stored == old(stored)
      ensures blobs == old(blobs)
    {
      var usage := GetCacheUsage();
      if url in usage.resources {
        var record := usage.resources[url];
        stored := Some(usage.(resources := usage.resources[url := record.(lastAccessed := now)]));
      }
    }

    /** Drops a recorded url and subtracts its size; an unknown url is left
      alone and nothing is persisted. */
    method RemoveFromCacheUsage(url: string)
      modifies this
      ensures url in old(Snapshot()).resources ==> stored == Some(Remove(old(Snapshot()), url))
      ensures url !in old(Snapshot()).resources ==> stored == old(stored)
      ensures blobs == old(blobs)
    {
      var usage := GetCacheUsage();
      if url in usage.resources {
        var size := usage.resources[url].size;
        stored := Some(Usage(usage.totalSize - size, usage.resources - {url}));
      }
    }

    /** Stores `data` under `url` in the blob cache, then records the write in
      the ledger. If the blob cache rejects the put, the error is passed on
      and the ledger is not touched. */
    method CacheResource(url: string, data: seq<byte>, now: int, putRejected: bool)
      returns (r: Outcome)
      modifies this
      ensures putRejected ==> r == Fail(PutRejected) && stored == old(stored) && blobs == old(blobs)
      ensures !putRejected ==>
        && r == Pass
        && blobs == old(blobs)[url := data]
        && stored == Some(Write(old(Snapshot()), url, |data|, now))
      ensures old(Consistent()) ==> Consistent()
      ensures old(TotalIsSum(Snapshot())) ==> TotalIsSum(Snapshot())
    {
      if putRejected {
        return Fail(PutRejected);
      }
      blobs := blobs[url := data];
      UpdateCacheUsage(url, |data|, now);
      r := Pass;
    }

    /** Looks `url` up in the blob cache. A hit refreshes the url's access
      time and returns the bytes; a miss fails with `NotCached` and changes
      nothing. */
    method GetCachedResource(url: string, now: int) returns (r: Result<seq<byte>>)
      modifies this
      ensures blobs == old(blobs)
      ensures url !in old(blobs) ==> r == Err(NotCached) && stored == old(stored)
      ensures url in old(blobs) ==> r == Ok(old(blobs)[url])
      ensures url in old(blobs) && url in old(Snapshot()).resources ==>
        stored == Some(Touch(old(Snapshot()), url, now))
      ensures url in old(blobs) && url !in old(Snapshot()).resources ==> stored == old(stored)
      ensures old(Consistent()) ==> Consistent()
      ensures old(TotalIsSum(Snapshot())) ==> TotalIsSum(Snapshot())
    {
      if url in blobs {
        UpdateResourceAccessTime(url, now);
        return Ok(blobs[url]);
      }
      r := Err(NotCached);
    }

    /** The eviction sweep. Under budget it does nothing. Over budget it walks
      the records oldest access first (`order`, returned for the proof),
      deleting each blob, lowering a running total and dropping the record,
      until the running total is at most 0.8 * `max`. A blob deletion the
      cache rejects (`rejected`) ends the sweep at that record. */
    method CleanupCache(max: int := MAX_CACHE_SIZE, rejected: set<string> := {})
      returns (ghost order: seq<string>)
      modifies this
      ensures old(Snapshot()).totalSize <= max ==> stored == old(stored) && blobs == old(blobs)
      ensures old(Snapshot()).totalSize > max ==> IsAccessOrder(order, old(Snapshot()).resources)
      ensures old(Snapshot()).totalSize > max ==>
        var u := old(Snapshot());
        var n := EvictionCount(order, u.resources, 0, u.totalSize, max, rejected);
        && blobs == old(blobs) - Elements(order[..n])
        && (n == 0 ==> stored == old(stored))
        && (n > 0 ==> stored == Some(RemoveAll(u, order[..n])))
      ensures old(Consistent()) ==> Consistent()
      ensures old(TotalIsSum(Snapshot())) ==> TotalIsSum(Snapshot())
    {
      order := [];
      var usage := GetCacheUsage();
      if usage.totalSize <= max {
        return;
      }
      var entries := Entries(usage.resources);
      var sorted := SortByAccess(entries, usage.resources);
      order := sorted;
      ghost var n := EvictInOrder(usage, sorted, max, rejected);
      assert NoDup(sorted[..n]) && AllIn(sorted[..n], usage.resources);
      RemoveAllEffect(usage, sorted[..n]);
      SortedEntriesAreAccessOrder(entries, usage.resources);
    }

    /** The sweep's loop over `order`: evicts records in turn while the
      running total is above the low-water mark, and stops at the first
      record whose blob deletion is rejected. */
    method EvictInOrder(usage: Usage, order: seq<string>, max: int, rejected: set<string>)
      returns (ghost n: nat)
      requires Snapshot() == usage
      requires NoDup(order) && AllIn(order, usage.resources)
      modifies this
      ensures n == EvictionCount(order, usage.resources, 0, usage.totalSize, max, rejected)
      ensures blobs == old(blobs) - Elements(order[..n])
      ensures n == 0 ==> stored == old(stored)
      ensures n > 0 ==> stored == Some(RemoveAll(usage, order[..n]))
    {
      n := EvictionCount(order, usage.resources, 0, usage.totalSize, max, rejected);
      var currentSize := usage.totalSize;
      var i := 0;
      while i < |order|
        invariant i <= |order|
        invariant EvictionCount(order, usage.resources, i, currentSize, max, rejected) == n
        invariant blobs == old(blobs) - Elements(order[..i])
        invariant i == 0 ==> stored == old(stored)
        invariant Snapshot() == RemoveAll(usage, order[..i])
        invariant i > 0 ==> stored == Some(Snapshot())
      {
        if AtLowWater(currentSize, max) {
          break;
        }
        var url := order[i];
        if url in rejected {
          break;
        }
        RemoveAllStep(usage, order, i);
        MinusStep(old(blobs), Elements(order[..i]), url);
        blobs := blobs - {url};
        currentSize := currentSize - usage.resources[url].size;
        RemoveFromCacheUsage(url);
        i := i + 1;
      }
      assert i == n;
    }

    /** The message listener: routes the three actions to their handlers and
      sends back their outcome; any other action gets no reply. */
    method HandleMessage(msg: Message, now: int, putRejected: bool) returns (reply: Reply)
      modifies this
      ensures msg.action == "processEpub" ==>
        reply == Succeeded(Some(msg.data)) && stored == old(stored) && blobs == old(blobs)
      ensures msg.action == "cacheResource" && putRejected ==>
        reply == Failed(PutRejected) && stored == old(stored) && blobs == old(blobs)
      ensures msg.action == "cacheResource" && !putRejected ==>
        && reply == Succeeded(None)
        && blobs == old(blobs)[msg.url := msg.data]
        && stored == Some(Write(old(Snapshot()), msg.url, |msg.data|, now))
      ensures msg.action == "getCachedResource" && msg.url !in old(blobs) ==>
        reply == Failed(NotCached) && stored == old(stored) && blobs == old(blobs)
      ensures msg.action == "getCachedResource" && msg.url in old(blobs) ==>
        && reply == Succeeded(Some(old(blobs)[msg.url]))
        && blobs == old(blobs)
        && stored == (if msg.url in old(Snapshot()).resources
                      then Some(Touch(old(Snapshot()), msg.url, now)) else old(stored))
      ensures msg.action !in {"processEpub", "cacheResource", "getCachedResource"} ==>
        reply == NoReply && stored == old(stored) && blobs == old(blobs)
    {
      if msg.action == "processEpub" {
        var fileData := new byte[|msg.data|](i requires 0 <= i < |msg.data| => msg.data[i]);
        assert fileData[..] == msg.data;
        var result;
        ghost var copies;
        result, copies := ProcessEpubFile(fileData);
        return Succeeded(Some(result[..]));
      }
      if msg.action == "cacheResource" {
        var outcome := CacheResource(msg.url, msg.data, now, putRejected);
        return if outcome.Pass? then Succeeded(None) else Failed(outcome.error);
      }
      if msg.action == "getCachedResource" {
        var result := GetCachedResource(msg.url, now);
        return if result.Ok? then Succeeded(Some(result.value)) else Failed(result.error);
      }
      reply := NoReply;
    }
  }

  /** The worked example's setup: three 40-byte resources cached at
      times 1, 2 and 3 into a fresh installation. */
  method FillScenario() returns (cache: BackgroundCache)
    ensures fresh(cache)
    ensures cache.Snapshot() == Usage(120, ScenarioRecords())
    ensures cache.blobs.Keys == ScenarioRecords().Keys
  {
    cache := new BackgroundCache();
    var bytes := seq(40, _ => 0 as byte);
    var r := cache.CacheResource("a", bytes, 1, false);
    assert cache.Snapshot().resources == map["a" := UsageRecord(40, 1)];
    assert map["a" := UsageRecord(40, 1)] - {"a"} == map[];
    r := cache.CacheResource("b", bytes, 2, false);
    assert cache.Snapshot().totalSize == 80 by {
      assert map["a" := UsageRecord(40, 1)] - {"b"} == map["a" := UsageRecord(40, 1)];
    }
    r := cache.CacheResource("c", bytes, 3, false);
    assert cache.Snapshot().totalSize == 120 by {
      assert map["a" := UsageRecord(40, 1), "b" := UsageRecord(40, 2)] - {"c"}
          == map["a" := UsageRecord(40, 1), "b" := UsageRecord(40, 2)];
    }
  }

  /** The worked example end to end: after the setup, a sweep with budget
      100 evicts only the oldest resource. */
  method SweepScenario() returns (cache: BackgroundCache)
    ensures cache.blobs.Keys == {"b", "c"}
    ensures cache.Snapshot() == Usage(80, map["b" := UsageRecord(40, 2), "c" := UsageRecord(40, 3)])
  {
    cache := FillScenario();
    ghost var order := cache.CleanupCache(100);
    ScenarioEvictsOnlyOldest(order);
  }
}
