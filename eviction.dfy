/** The eviction policy: order the ledger's records by last access
    (oldest first) and decide how long a prefix of that order the sweep
    removes, given the budget `max` and the low-water mark 0.8 * max. */
module Eviction {
  import opened Ledger

  predicate NoDup(s: seq<string>) {
    forall i, j :: 0 <= i < j < |s| ==> s[i] != s[j]
  }

  /** `s` lists every key of `keys` exactly once. */
  ghost predicate Enumerates(s: seq<string>, keys: set<string>) {
    NoDup(s) && forall x :: x in s <==> x in keys
  }

  predicate AllIn(s: seq<string>, res: Resources) {
    forall i :: 0 <= i < |s| ==> s[i] in res
  }

  /** `s` is in ascending order of last access. */
  predicate SortedByAccess(s: seq<string>, res: Resources) {
    && AllIn(s, res)
    && forall i, j :: 0 <= i < j < |s| ==> res[s[i]].lastAccessed <= res[s[j]].lastAccessed
  }

  /** The order the sweep walks: all records, oldest access first. */
  ghost predicate IsAccessOrder(order: seq<string>, res: Resources) {
    Enumerates(order, res.Keys) && SortedByAccess(order, res)
  }

  function Elements(s: seq<string>): set<string> {
    set x | x in s
  }

  /** Enumerating the ledger's records (`Object.entries`). The order the
      records come out in is left unspecified. */
  method Entries(resources: Resources) returns (keys: seq<string>)
    ensures Enumerates(keys, resources.Keys)
  {
    keys := [];
    var rest := resources.Keys;
    while rest != {}
      invariant rest <= resources.Keys
      invariant NoDup(keys)
      invariant forall x :: x in keys <==> x in resources.Keys && x !in rest
      decreases |rest|
    {
      var k :| k in rest;
      keys := keys + [k];
      rest := rest - {k};
    }
  }

  lemma NoDupCons(x: string, s: seq<string>)
    ensures NoDup(s) && x !in s ==> NoDup([x] + s)
  {
  }

  lemma AllInCons(x: string, s: seq<string>, res: Resources)
    ensures x in res && AllIn(s, res) ==> AllIn([x] + s, res)
  {
  }

  /** In an access-sorted sequence the first record is the oldest. */
  lemma HeadIsOldest(s: seq<string>, res: Resources, x: string)
    requires SortedByAccess(s, res) && x in s
    ensures res[s[0]].lastAccessed <= res[x].lastAccessed
  {
  }

  /** Places `k` in front of the first record of `s` accessed no earlier
      than `k`, so that `k` stays before records tied with it. */
  function InsertByAccess(k: string, s: seq<string>, res: Resources): (r: seq<string>)
    requires k in res && AllIn(s, res)
    ensures multiset(r) == multiset(s) + multiset{k}
    ensures k !in s && NoDup(s) ==> NoDup(r)
    ensures AllIn(r, res)
  {
    if s == [] || res[k].lastAccessed <= res[s[0]].lastAccessed then
      NoDupCons(k, s);
      AllInCons(k, s, res);
      [k] + s
    else
      var rest := InsertByAccess(k, s[1..], res);
      assert s == [s[0]] + s[1..];
      assert k !in s && NoDup(s) ==> s[0] !in multiset(rest);
      NoDupCons(s[0], rest);
      AllInCons(s[0], rest, res);
      [s[0]] + rest
  }

  /** Inserting into an access-sorted sequence keeps it sorted. */
  lemma {:induction false} InsertKeepsSorted(k: string, s: seq<string>, res: Resources)
    requires k in res && SortedByAccess(s, res)
    ensures SortedByAccess(InsertByAccess(k, s, res), res)
  {
    if !(s == [] || res[k].lastAccessed <= res[s[0]].lastAccessed) {
      var rest := InsertByAccess(k, s[1..], res);
      InsertKeepsSorted(k, s[1..], res);
      assert s == [s[0]] + s[1..];
      forall x | x in rest ensures res[s[0]].lastAccessed <= res[x].lastAccessed {
        assert x in multiset(s[1..]) + multiset{k};
        if x != k {
          HeadIsOldest(s, res, x);
        }
      }
    }
  }

  /** The sort by ascending last access: a stable insertion sort, standing
      for the stable array sort with comparator
      `a.lastAccessed - b.lastAccessed`. */
  function SortByAccess(keys: seq<string>, res: Resources): (r: seq<string>)
    requires AllIn(keys, res)
    ensures multiset(r) == multiset(keys)
    ensures NoDup(keys) ==> NoDup(r)
    ensures AllIn(r, res)
  {
    if keys == [] then []
    else
      var rest := SortByAccess(keys[1..], res);
      assert keys == [keys[0]] + keys[1..];
      assert multiset(keys) == multiset(keys[1..]) + multiset{keys[0]};
      assert NoDup(keys) ==> keys[0] !in multiset(keys[1..]);
      InsertByAccess(keys[0], rest, res)
  }

  /** The sort's result is in ascending order of last access. */
  lemma {:induction false} SortByAccessSorted(keys: seq<string>, res: Resources)
    requires AllIn(keys, res)
    ensures SortedByAccess(SortByAccess(keys, res), res)
  {
    if keys != [] {
      SortByAccessSorted(keys[1..], res);
      var sorted := SortByAccess(keys[1..], res);
      InsertKeepsSorted(keys[0], sorted, res);
    }
  }

  /** The sort is stable: when every access time ties, the records keep
      the order in which they were enumerated. */
  lemma {:induction false} SortByAccessKeepsTies(keys: seq<string>, res: Resources)
    requires AllIn(keys, res)
    requires forall i, j :: 0 <= i < |keys| && 0 <= j < |keys| ==>
      res[keys[i]].lastAccessed == res[keys[j]].lastAccessed
    ensures SortByAccess(keys, res) == keys
  {
    if keys != [] {
      SortByAccessKeepsTies(keys[1..], res);
      assert keys == [keys[0]] + keys[1..];
    }
  }

  /** The sorted enumeration of the records is an access order. */
  lemma SortedEntriesAreAccessOrder(keys: seq<string>, res: Resources)
    requires Enumerates(keys, res.Keys)
    ensures IsAccessOrder(SortByAccess(keys, res), res)
  {
    var r := SortByAccess(keys, res);
    SortByAccessSorted(keys, res);
    forall x ensures x in r <==> x in res.Keys {
      assert x in r <==> x in multiset(keys);
    }
  }

  /** The sizes of the first `j` records of `order`, read from the
      snapshot `res`: what the sweep has subtracted from its running total
      after `j` evictions. */
  function PrefixSize(order: seq<string>, res: Resources, j: nat): (sum: nat)
    requires j <= |order| && AllIn(order, res)
  {
    if j == 0 then 0 else PrefixSize(order, res, j - 1) + res[order[j - 1]].size
  }

  /** The sizes of the first `j` records do not depend on what follows them. */
  lemma {:induction false} PrefixSizeOfPrefix(order: seq<string>, res: Resources, j: nat, k: nat)
    requires j <= k <= |order| && AllIn(order, res)
    ensures AllIn(order[..k], res)
    ensures PrefixSize(order[..k], res, j) == PrefixSize(order, res, j)
  {
    if j > 0 {
      PrefixSizeOfPrefix(order, res, j - 1, k);
      assert order[..k][j - 1] == order[j - 1];
    }
  }

  /** `current <= 0.8 * max`, in integers. */
  predicate AtLowWater(current: int, max: int) {
    5 * current <= 4 * max
  }

  /** Just before the eviction of `order[j]` the running total was still
      above the low-water mark and the record's blob deletion went through. */
  predicate EvictedAt(order: seq<string>, res: Resources, j: nat, total: int,
                      max: int, rejected: set<string>)
    requires j < |order| && AllIn(order, res)
  {
    !AtLowWater(total - PrefixSize(order, res, j), max) && order[j] !in rejected
  }

  /** How many records of `order`, from position `i` on, the sweep evicts
      with running total `current`: it stops at the low-water mark, at the
      end of the order, or at a record whose blob deletion is rejected. */
  function EvictionCount(order: seq<string>, res: Resources, i: nat, current: int,
                         max: int, rejected: set<string>): (n: nat)
    requires i <= |order| && AllIn(order, res)
    ensures i <= n <= |order|
    decreases |order| - i
  {
    if i == |order| || AtLowWater(current, max) || order[i] in rejected then i
    else EvictionCount(order, res, i + 1, current - res[order[i]].size, max, rejected)
  }

  /** The ledger after the records in `keys` are removed one after another. */
  function RemoveAll(u: Usage, keys: seq<string>): (after: Usage) {
    if keys == [] then u
    else Remove(RemoveAll(u, keys[..|keys| - 1]), keys[|keys| - 1])
  }

  /** Removing distinct recorded urls one by one drops exactly those records
      and exactly their sizes, and keeps the total equal to the sum. */
  lemma {:induction false} RemoveAllEffect(u: Usage, keys: seq<string>)
    requires NoDup(keys) && AllIn(keys, u.resources)
    ensures RemoveAll(u, keys).resources.Keys == u.resources.Keys - Elements(keys)
    ensures forall k :: k in RemoveAll(u, keys).resources ==>
      RemoveAll(u, keys).resources[k] == u.resources[k]
    ensures RemoveAll(u, keys).totalSize == u.totalSize - PrefixSize(keys, u.resources, |keys|)
    ensures TotalIsSum(u) ==> TotalIsSum(RemoveAll(u, keys))
  {
    if keys != [] {
      var init, last := keys[..|keys| - 1], keys[|keys| - 1];
      assert keys == init + [last];
      RemoveAllEffect(u, init);
      PrefixSizeOfPrefix(keys, u.resources, |init|, |init|);
      assert last !in init;
      assert Elements(keys) == Elements(init) + {last};
    }
  }

  /** Evicting the next url of a duplicate-free order removes a record that
      is still there and extends the evicted prefix by one. */
  lemma RemoveAllStep(u: Usage, order: seq<string>, i: nat)
    requires i < |order| && NoDup(order) && AllIn(order, u.resources)
    ensures order[i] in RemoveAll(u, order[..i]).resources
    ensures Remove(RemoveAll(u, order[..i]), order[i]) == RemoveAll(u, order[..i + 1])
    ensures Elements(order[..i + 1]) == Elements(order[..i]) + {order[i]}
  {
    var prefix := order[..i + 1];
    assert prefix[..i] == order[..i];
    assert prefix == order[..i] + [order[i]];
    RemoveAllEffect(u, order[..i]);
    assert order[i] !in order[..i];
  }

  /** The sweep's stopping rule, from position `i` on, when the running total
      is the starting total less what was evicted before `i`. */
  lemma {:induction false} EvictionStopsFrom(order: seq<string>, res: Resources, i: nat,
                                            total: int, max: int, rejected: set<string>)
    requires i <= |order| && AllIn(order, res)
    ensures var n := EvictionCount(order, res, i, total - PrefixSize(order, res, i), max, rejected);
      && (forall j :: i <= j < n ==> EvictedAt(order, res, j, total, max, rejected))
      && (n == |order| || order[n] in rejected || AtLowWater(total - PrefixSize(order, res, n), max))
    decreases |order| - i
  {
    var current := total - PrefixSize(order, res, i);
    if !(i == |order| || AtLowWater(current, max) || order[i] in rejected) {
      EvictionStopsFrom(order, res, i + 1, total, max, rejected);
    }
  }

  /** A sweep starting from `total` evicts a prefix of `order` of length
      `n`: before each eviction the running total was still above the
      low-water mark, and the sweep stops only at the mark, at the end of
      the order, or at a record whose blob deletion is rejected. */
  lemma EvictionStopsAtLowWater(order: seq<string>, res: Resources, total: int,
                                max: int, rejected: set<string>)
    requires AllIn(order, res)
    ensures var n := EvictionCount(order, res, 0, total, max, rejected);
      && (forall j :: 0 <= j < n ==> EvictedAt(order, res, j, total, max, rejected))
      && (n == |order| || order[n] in rejected || AtLowWater(total - PrefixSize(order, res, n), max))
  {
    EvictionStopsFrom(order, res, 0, total, max, rejected);
  }

  /** Removing every record of an enumeration empties the ledger. */
  lemma RemoveEnumerationEmpties(u: Usage, order: seq<string>)
    requires Enumerates(order, u.resources.Keys) && AllIn(order, u.resources)
    ensures RemoveAll(u, order).resources == map[]
  {
    RemoveAllEffect(u, order);
    assert Elements(order) == u.resources.Keys;
  }

  /** Without rejected deletions, on a ledger whose total is the sum, the
      sweep leaves the ledger at or below the low-water mark unless it
      evicted every record. This holds for any enumeration of the records,
      the access order among them. */
  lemma SweepReachesLowWater(u: Usage, order: seq<string>, max: int)
    requires Enumerates(order, u.resources.Keys) && AllIn(order, u.resources) && TotalIsSum(u)
    ensures var n := EvictionCount(order, u.resources, 0, u.totalSize, max, {});
      var after := RemoveAll(u, order[..n]);
      && TotalIsSum(after)
      && (after.resources == map[] || AtLowWater(after.totalSize, max))
  {
    var res := u.resources;
    var n := EvictionCount(order, res, 0, u.totalSize, max, {});
    var evicted := order[..n];
    assert NoDup(evicted) && AllIn(evicted, res);
    RemoveAllEffect(u, evicted);
    if n == |order| {
      assert evicted == order;
      RemoveEnumerationEmpties(u, order);
    } else {
      SweepStopsAtMark(order, res, u.totalSize, max);
      PrefixSizeOfPrefix(order, res, n, n);
    }
  }

  /** Without rejected deletions, a sweep that ends before the end of the
      order ends at the low-water mark. */
  lemma SweepStopsAtMark(order: seq<string>, res: Resources, total: int, max: int)
    requires AllIn(order, res)
    ensures var n := EvictionCount(order, res, 0, total, max, {});
      n < |order| ==> AtLowWater(total - PrefixSize(order, res, n), max)
  {
    EvictionStopsAtLowWater(order, res, total, max, {});
  }

  /** Least recently used first: every evicted record was accessed no later
      than every surviving one. */
  lemma EvictedAreLeastRecent(order: seq<string>, res: Resources, n: nat)
    requires IsAccessOrder(order, res) && n <= |order|
    ensures forall e, s :: e in Elements(order[..n]) && s in res.Keys - Elements(order[..n]) ==>
      res[e].lastAccessed <= res[s].lastAccessed
  {
  }

  /** The worked example: budget 100, records a, b and c of 40 bytes
      accessed at times 1, 2 and 3. */
  function ScenarioRecords(): Resources {
    map["a" := UsageRecord(40, 1), "b" := UsageRecord(40, 2), "c" := UsageRecord(40, 3)]
  }

  /** In the worked example the only access order is a, b, c. */
  lemma ScenarioOrder(order: seq<string>)
    requires IsAccessOrder(order, ScenarioRecords())
    ensures order == ["a", "b", "c"]
  {
    var ia, ib, ic := ScenarioPositions(order);
    OnlyThree(order, ia, ib, ic);
  }

  /** Where a, b and c sit in an access order of the worked example. */
  lemma ScenarioPositions(order: seq<string>) returns (ia: nat, ib: nat, ic: nat)
    requires IsAccessOrder(order, ScenarioRecords())
    ensures ia < ib < ic < |order|
    ensures order[ia] == "a" && order[ib] == "b" && order[ic] == "c"
    ensures forall t :: 0 <= t < |order| ==> order[t] == "a" || order[t] == "b" || order[t] == "c"
  {
    var res := ScenarioRecords();
    assert "a" in order && "b" in order && "c" in order;
    ia :| 0 <= ia < |order| && order[ia] == "a";
    ib :| 0 <= ib < |order| && order[ib] == "b";
    ic :| 0 <= ic < |order| && order[ic] == "c";
    forall t | 0 <= t < |order| ensures order[t] == "a" || order[t] == "b" || order[t] == "c" {
      assert order[t] in res;
    }
  }

  /** A duplicate-free sequence over three values, holding them in this
      order, is exactly those three. */
  lemma OnlyThree(order: seq<string>, ia: nat, ib: nat, ic: nat)
    requires NoDup(order)
    requires ia < ib < ic < |order|
    requires order[ia] == "a" && order[ib] == "b" && order[ic] == "c"
    requires forall t :: 0 <= t < |order| ==> order[t] == "a" || order[t] == "b" || order[t] == "c"
    ensures order == ["a", "b", "c"]
  {
    // Naming these positions brings each one's value, one of the three, into play.
    var first, second, third, last := order[0], order[1], order[2], order[|order| - 1];
    assert ia == 0;
    assert ib == 1;
    assert ic == 2;
    assert |order| == 3;
  }

  /** In the worked example the sweep evicts a alone and leaves b and c
      with a total of 80. */
  lemma ScenarioEvictsOnlyOldest(order: seq<string>)
    requires IsAccessOrder(order, ScenarioRecords())
    ensures order == ["a", "b", "c"]
    ensures EvictionCount(order, ScenarioRecords(), 0, 120, 100, {}) == 1
    ensures RemoveAll(Usage(120, ScenarioRecords()), order[..1])
         == Usage(80, map["b" := UsageRecord(40, 2), "c" := UsageRecord(40, 3)])
  {
    ScenarioOrder(order);
    assert order[..1] == ["a"];
    assert order[..1][..0] == [];
    assert ScenarioRecords() - {"a"} == map["b" := UsageRecord(40, 2), "c" := UsageRecord(40, 3)];
  }

  /** The sweep may end well below the low-water mark while records remain:
      with budget 100 and records a (100 bytes, oldest) and b (10 bytes),
      evicting a leaves b alone, 10 bytes. */
  lemma SweepMayEndBelowMark()
    ensures var res := map["a" := UsageRecord(100, 1), "b" := UsageRecord(10, 2)];
      && IsAccessOrder(["a", "b"], res)
      && EvictionCount(["a", "b"], res, 0, 110, 100, {}) == 1
      && RemoveAll(Usage(110, res), ["a"]) == Usage(10, map["b" := UsageRecord(10, 2)])
  {
  }
}
