/** The usage ledger of the background cache: one record per cached url
    (its byte size and last access time) and a running total, persisted
    as a single object. This module holds the values and the pure
    meaning of the three ledger mutations; the class in Background
    performs them in place. */
module Ledger {

  datatype Option<T> = None | Some(value: T)

  /** What the ledger knows about one cached resource. */
  datatype UsageRecord = UsageRecord(size: nat, lastAccessed: int)

  type Resources = map<string, UsageRecord>

  /** The persisted ledger object `{ totalSize, resources }`. */
  datatype Usage = Usage(totalSize: int, resources: Resources)

  /** What the ledger reads as when nothing has been persisted yet. */
  const EMPTY_USAGE := Usage(0, map[])

  /** The sum of the sizes of all records: the fold the ledger uses
      to recompute its total. */
  ghost function SumSizes(m: Resources): (sum: nat)
    decreases |m|
  {
    if m == map[] then 0
    else
      var k :| k in m;
      m[k].size + SumSizes(m - {k})
  }

  /** The ledger's invariant: the stored total is the sum of the sizes. */
  ghost predicate TotalIsSum(u: Usage) {
    u.totalSize == SumSizes(u.resources)
  }

  /** Whatever record the fold happens to take first, the sum is the same. */
  lemma {:induction false} SumSizesRemove(m: Resources, k: string)
    requires k in m
    ensures SumSizes(m) == m[k].size + SumSizes(m - {k})
    decreases |m|
  {
    var j :| j in m && SumSizes(m) == m[j].size + SumSizes(m - {j});
    if j != k {
      assert k in m - {j};
      SumSizesRemove(m - {j}, k);
      assert j in m - {k};
      SumSizesRemove(m - {k}, j);
      assert m - {j} - {k} == m - {k} - {j};
    }
  }

  /** Replacing (or adding) one record changes the sum by that record only. */
  lemma SumSizesUpdate(m: Resources, k: string, r: UsageRecord)
    ensures SumSizes(m[k := r]) == SumSizes(m - {k}) + r.size
  {
    SumSizesRemove(m[k := r], k);
    assert m[k := r] - {k} == m - {k};
  }

  /** The total recomputed over all records, as the ledger's `reduce` does:
      records are visited one at a time in an unspecified order. */
  method SumOfSizes(resources: Resources) returns (total: nat)
    ensures total == SumSizes(resources)
  {
    total := 0;
    var rest := resources;
    while rest != map[]
      invariant total + SumSizes(rest) == SumSizes(resources)
      decreases |rest|
    {
      var k :| k in rest;
      SumSizesRemove(rest, k);
      total := total + rest[k].size;
      rest := rest - {k};
    }
  }

  /** The ledger after a cache write of `size` bytes under `url` at time `now`:
      the record is created or replaced and the total recomputed. */
  ghost function Write(u: Usage, url: string, size: nat, now: int): (r: Usage)
    ensures r.resources.Keys == u.resources.Keys + {url}
    ensures r.resources[url] == UsageRecord(size, now)
    ensures forall k :: k in u.resources && k != url ==> r.resources[k] == u.resources[k]
    ensures r.totalSize == SumSizes(u.resources - {url}) + size
    ensures TotalIsSum(r)
  {
    var res := u.resources[url := UsageRecord(size, now)];
    SumSizesUpdate(u.resources, url, UsageRecord(size, now));
    Usage(SumSizes(res), res)
  }

  /** The ledger after a read of `url` at time `now`: only an existing
      record's access time moves; an unknown url changes nothing. */
  function Touch(u: Usage, url: string, now: int): (r: Usage)
    ensures url !in u.resources ==> r == u
    ensures url in u.resources ==>
      && r.resources.Keys == u.resources.Keys
      && r.resources[url] == UsageRecord(u.resources[url].size, now)
      && r.totalSize == u.totalSize
    ensures forall k :: k in u.resources && k != url ==> r.resources[k] == u.resources[k]
    ensures TotalIsSum(u) ==> TotalIsSum(r)
  {
    if url in u.resources then
      var rec := u.resources[url].(lastAccessed := now);
      SumSizesUpdate(u.resources, url, rec);
      SumSizesRemove(u.resources, url);
      Usage(u.totalSize, u.resources[url := rec])
    else
      u
  }

  /** The ledger after `url` is dropped: its record goes and exactly its
      size leaves the total; an unknown url changes nothing. */
  function Remove(u: Usage, url: string): (r: Usage)
    ensures url !in u.resources ==> r == u
    ensures url in u.resources ==>
      && r.resources.Keys == u.resources.Keys - {url}
      && r.totalSize == u.totalSize - u.resources[url].size
    ensures forall k :: k in r.resources ==> k in u.resources && r.resources[k] == u.resources[k]
    ensures TotalIsSum(u) ==> TotalIsSum(r)
  {
    if url in u.resources then
      SumSizesRemove(u.resources, url);
      Usage(u.totalSize - u.resources[url].size, u.resources - {url})
    else
      u
  }

  /** Writing the same url twice keeps one record, the second; the first
      size no longer counts towards the total. */
  lemma RewriteSameKey(u: Usage, url: string, s1: nat, t1: int, s2: nat, t2: int)
    ensures Write(Write(u, url, s1, t1), url, s2, t2) == Write(u, url, s2, t2)
    ensures Write(Write(u, url, s1, t1), url, s2, t2).totalSize == SumSizes(u.resources - {url}) + s2
  {
    assert u.resources[url := UsageRecord(s1, t1)][url := UsageRecord(s2, t2)]
        == u.resources[url := UsageRecord(s2, t2)];
  }

  /** With a clock that never runs backwards, the url just touched is the
      most recently used record, hence the last candidate for eviction. */
  lemma TouchMakesMostRecent(u: Usage, url: string, now: int)
    requires url in u.resources
    requires forall k :: k in u.resources ==> u.resources[k].lastAccessed <= now
    ensures forall k :: k in Touch(u, url, now).resources ==>
      Touch(u, url, now).resources[k].lastAccessed <= Touch(u, url, now).resources[url].lastAccessed
  {
  }
}
