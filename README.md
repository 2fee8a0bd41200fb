# Background cache of the EPUB reader extension, in Dafny

The reader extension's background script keeps a size-budgeted, roughly
least-recently-used cache of book resources in two stores:

- the **usage ledger**, persisted under the `cacheUsage` key of the
  extension's local storage: one record `{size, lastAccessed}` per url and a
  `totalSize`;
- the **blob cache**, the bytes of each cached response by url.

This project models that script as imperative Dafny and proves what its
operations do to the two stores.

- `ledger.dfy` (module `Ledger`) holds the ledger values and the meaning of
  its three mutations: write, touch and remove. It also holds the ghost sum
  of sizes (`SumSizes`) and the loop that recomputes the total the way the
  script's `reduce` does.
- `eviction.dfy` (module `Eviction`) holds the eviction policy:
  - enumerating the records;
  - a stable sort by last access;
  - how many records a sweep evicts (`EvictionCount`);
  - the lemmas about the sweep: stopping rule, LRU prefix, low-water mark,
    and a worked example.
- `chunking.dfy` (module `Chunking`) holds the chunked copy of a large
  buffer:
  - the chunk arithmetic;
  - the disjointness and coverage of the chunk ranges;
  - the copy loop, which runs the per-chunk copies in an arbitrary order.
- `background.dfy` (module `Background`) holds the class `BackgroundCache`.
  Its field `stored` is the persisted ledger (`None` while never written)
  and its field `blobs` is the blob cache. Its methods are the script's
  cache and ledger functions, `HandleMessage` for the three message actions
  (which calls `Chunking.ProcessEpubFile` for `processEpub`), and
  `EvictInOrder`, the loop of `cleanupCache` as a method of its own.

How the environment is modelled:

- The clock is a `now` argument.
- The blob cache's failures are arguments: `putRejected` for `cache.put`,
  and the set `rejected` of urls whose `cache.delete` fails.
- The budget `max` is an argument of the sweep. It defaults to
  `MAX_CACHE_SIZE` = 52428800.
- The low-water test `currentSize <= MAX_CACHE_SIZE * 0.8` is written in
  integers as `5 * current <= 4 * max`. This is exact: 0.8 × 52428800 =
  41943040.

Three behaviours of the code are worth stating plainly:

- **Ties in the sort.** The sort compares last-access times only. Records
  with equal times keep the order in which `Object.entries` listed them; it
  does not break ties by url. `Entries` leaves that enumeration order
  unspecified, and `SortByAccess` is a stable insertion sort over it.
- **A rejected delete ends the sweep.** A rejected `cache.delete` exits the
  loop through the outer `catch`. The record that failed and every later
  record stay in both stores. The sweep does not skip the record and go on.
- **The sweep can undershoot.** It can end far below the low-water mark
  while records remain: whole records go, so the last one can take the total
  well under 0.8 × MAX. `SweepMayEndBelowMark` shows this with a budget of
  100, one 100-byte record and one 10-byte record.

## Model

| member | source | states |
|---|---|---|
| Ledger.SumOfSizes | background/background.js:169-170 | The fold over all records, visiting them in any order, yields exactly the sum of their sizes. |
| Ledger.SumSizesRemove | background/background.js:169-170 | The sum of sizes does not depend on which record the fold takes first: it is any record's size plus the sum over the rest. |
| Ledger.Write | background/background.js:159-174 | A write adds or replaces exactly the url's record with `{size, now}` and leaves every other record alone. The new total is the old records' sum without the url's record, plus `size`, and it equals the sum of all sizes. |
| Ledger.Touch | background/background.js:176-183 | A touch of an unknown url changes nothing. A touch of a known url moves only its `lastAccessed`: same keys, same size, same total, other records unchanged. The total-equals-sum invariant is preserved. |
| Ledger.Remove | background/background.js:185-193 | Removing an unknown url changes nothing. Removing a known url drops exactly that key and subtracts exactly its size; every remaining record is unchanged. The total-equals-sum invariant is preserved. |
| Ledger.RewriteSameKey | background/background.js:163-170 | Writing a url with size s1 and then s2 equals writing it once with s2. The total counts s2 only, not s1 + s2. |
| Ledger.TouchMakesMostRecent | background/background.js:179-180 | With a clock that never runs backwards, the url just touched has the latest access time of all records. |
| Eviction.Entries | background/background.js:125 | The enumeration lists every recorded url exactly once. |
| Eviction.InsertByAccess | background/background.js:126 | Insertion produces a permutation of the input plus the new url; it stays duplicate-free and within the records. |
| Eviction.InsertKeepsSorted | background/background.js:126 | Inserting into a sequence sorted by ascending last access keeps it sorted. |
| Eviction.SortByAccess | background/background.js:125-126 | The sort's result is a permutation of its input, duplicate-free when the input is, and within the records. |
| Eviction.SortByAccessSorted | background/background.js:125-126 | The sort's result is in ascending order of last access. |
| Eviction.SortByAccessKeepsTies | background/background.js:125-126 | The sort is stable: when every access time ties, the records come out in the order they were enumerated. |
| Eviction.SortedEntriesAreAccessOrder | background/background.js:125-126 | The sorted enumeration lists every record exactly once, oldest access first. |
| Eviction.EvictionCount | background/background.js:131-142 | The number of records the sweep evicts from a position on is between that position and the length of the order. |
| Eviction.RemoveAllStep | background/background.js:137-141 | Evicting the next url of the order removes a record still in the ledger and extends the evicted prefix by exactly that url. |
| Eviction.RemoveAllEffect | background/background.js:137-141 | Removing distinct recorded urls one by one leaves exactly the other keys with their records unchanged. The total drops by exactly their sizes (the running total's decrements), and the total-equals-sum invariant is preserved. |
| Eviction.PrefixSizeOfPrefix | background/background.js:138 | What the running total has lost after j evictions depends on the first j records only, so it is the same whether read off the whole order or off the evicted prefix. |
| Eviction.EvictionStopsFrom | background/background.js:132-138 | From any position on, every evicted record was evicted while the running total was above the mark and its deletion went through. The sweep stops only at the end of the order, at a rejected deletion, or at the mark. |
| Eviction.EvictionStopsAtLowWater | background/background.js:131-142 | Before each eviction the running total was above 0.8 × max. The sweep stops only at the end of the order, at a rejected deletion, or once the running total is at most 0.8 × max. |
| Eviction.SweepStopsAtMark | background/background.js:133-135 | Without rejected deletions, a sweep that ends before the last record ends at the low-water mark. |
| Eviction.RemoveEnumerationEmpties | background/background.js:132-141 | Evicting every record of the enumeration empties the ledger. |
| Eviction.SweepReachesLowWater | background/background.js:123-142 | Without rejected deletions, on a ledger whose total is the sum, the ledger after the sweep keeps the invariant and is either empty or at most 0.8 × max. |
| Eviction.EvictedAreLeastRecent | background/background.js:125-141 | Every evicted record was accessed no later than every surviving record. |
| Eviction.ScenarioPositions | background/background.js:125-126 | For records a@1, b@2 and c@3, every access order holds a before b before c and nothing else. |
| Eviction.OnlyThree | background/background.js:125-126 | Such an order is exactly a, b, c. |
| Eviction.ScenarioOrder | background/background.js:125-126 | For records a@1, b@2 and c@3 the only access order is a, b, c. |
| Eviction.ScenarioEvictsOnlyOldest | background/background.js:123-142 | With budget 100 and three 40-byte records a@1, b@2 and c@3, the sweep evicts exactly a, leaving b and c with a total of 80. |
| Eviction.SweepMayEndBelowMark | background/background.js:133-142 | With budget 100, a (100 bytes, oldest) and b (10 bytes), the sweep evicts one record and ends at 10 bytes with b still cached, far below the mark of 80. |
| Chunking.ChunkCount | background/background.js:53 | The chunk count is the least count whose chunks reach the buffer's length (`Math.ceil`). |
| Chunking.ChunksDisjoint | background/background.js:58-59 | The byte ranges of two different chunks do not overlap. |
| Chunking.ChunksCover | background/background.js:57-59 | Every byte offset below the length lies in the range of a chunk that the loop visits, namely the offset divided by the chunk size. |
| Chunking.ChunkOfByte | background/background.js:58-59 | A byte offset lies in no chunk's range but its own. |
| Chunking.ChunkIndices | background/background.js:57 | The set of chunk numbers is exactly 0 to chunks − 1, and it has `chunks` elements. |
| Chunking.CopyChunkStep | background/background.js:63-65 | Copying one chunk's range adds that chunk to the copied ones and leaves the other bytes as they were. |
| Chunking.AllChunksCopied | background/background.js:67-69 | Once every chunk has been copied, the new buffer equals the input. |
| Chunking.ProcessEpubFile | background/background.js:44-78 | A buffer of at most five chunks is returned as it is. A larger one is copied chunk by chunk, in any order, into a fresh buffer equal to the input byte for byte; the result is handed back after exactly `ceil(len / chunkSize)` copies. |
| Background.BackgroundCache.GetCacheUsage | background/background.js:150-157 | The persisted ledger, or the empty ledger `{0, {}}` when nothing is stored yet. |
| Background.BackgroundCache.UpdateCacheUsage | background/background.js:159-174 | The stored ledger becomes `Ledger.Write` of the old one, with the total recomputed by the fold; the blob cache is untouched. |
| Background.BackgroundCache.UpdateResourceAccessTime | background/background.js:176-183 | A known url's record is touched and stored. For an unknown url nothing is stored and nothing changes. |
| Background.BackgroundCache.RemoveFromCacheUsage | background/background.js:185-193 | A known url's record is removed and stored. For an unknown url nothing is stored and nothing changes. |
| Background.BackgroundCache.CacheResource | background/background.js:81-95 | When the put is rejected, the method fails and neither store changes. Otherwise the blob cache maps the url to the bytes and the ledger records a write of `byteLength` bytes. In the model, where both stores are keyed by the same url string, ledger/blob agreement is preserved; total-equals-sum is preserved. |
| Background.BackgroundCache.GetCachedResource | background/background.js:98-114 | On a miss, the method fails with "not cached" and changes neither store. On a hit, it returns the cached bytes, keeps the blob cache, and touches the url's record if it has one. Total-equals-sum is preserved, and so is ledger/blob agreement in the model, where both stores are keyed by the same url string. |
| Background.BackgroundCache.CleanupCache | background/background.js:117-147 | Under budget, nothing changes. Over budget, the walk order is an access order of the records. The evicted urls are its first `EvictionCount` entries, removed from both the blob cache and the ledger. Nothing is stored if none was evicted. Total-equals-sum is preserved, and so is ledger/blob agreement in the model, where both stores are keyed by the same url string. |
| Background.BackgroundCache.EvictInOrder | background/background.js:131-142 | The loop over the order evicts exactly `EvictionCount` records: their blobs go, and the stored ledger becomes the old one with those records removed one by one. |
| Background.BackgroundCache.HandleMessage | background/background.js:17-41 | Each of the three actions is routed to its handler, and the handler's outcome comes back as success with data or failure with the error. `processEpub` replies with bytes equal to the input. Any other action gets no reply and changes nothing. |
| Background.FillScenario | background/background.js:81-95 | Caching three 40-byte resources at times 1, 2 and 3 into a fresh installation yields the ledger a@1, b@2, c@3 with a total of 120, and the blob cache holds the same three urls. |
| Background.SweepScenario | background/background.js:117-142 | After that setup, a sweep through the class with budget 100 leaves exactly b and c in the blob cache and the ledger {b@2, c@3} with a total of 80. |

## Left out

- I/O and scheduling. Promises, `setTimeout` and the asynchronous replies are not modelled. Each operation runs atomically and in sequence, and the chunk copies run in an arbitrary order within one method.
- The lost-update race. Interleaved read-modify-write calls on the ledger can overwrite each other; this is a concurrency effect, and the model runs operations one at a time.
- The fire-and-forget `chrome.storage.local.set` takes effect at once. Storage failures are not modelled.
- `Date.now()` is an integer argument `now`. Only `TouchMakesMostRecent` assumes it never runs backwards.
- `caches.open` failures and `cache.match` failures other than a miss are not modelled. A rejected `cache.put` is the `putRejected` argument, and a rejected `cache.delete` is membership in `rejected`.
- Error messages. They are the two constructors of `CacheError`, not strings.
- Ledger entries that decode to something other than `{totalSize, resources}`. The model trusts the stored shape.
- The install hook that runs the sweep (`chrome.runtime.onInstalled`) and the `console` logging are not modelled. `CleanupCache` is the sweep it runs.
- `processEpub`'s failure reply does not arise in the model: the copy cannot fail.
- The cache name and version constants play no part in the logic.
- The popup and reader pages are not part of this model.
- The blob cache is keyed by the url string, not by the parsed request URL the browser's cache uses. In the browser, urls that differ only in fragment or in URL normalisation share one blob but get separate ledger records. So "Consistent" (ledger/blob agreement) holds only of the model: after caching `http://h/a#1` and then `http://h/a#2` the browser keeps one blob and two ledger records, and a read of `#1` returns the second bytes, while the model keeps two blobs.
- Background.BackgroundCache.CleanupCache: the walk order is a ghost out-parameter, so its contract holds for the order the method chose and not for every access order. When access times tie, which records go depends on the enumeration order, as it does in the script.
