/**
 * The cluster statistics tracker of `Broker`: stat values live in the cache
 * provider under their own keys, and the list of known stat keys (the index)
 * lives under the well-known key `Q_STAT`.
 */
module StatsTracker {
  import opened Wrappers
  import opened Sequences

  /** A stat value as written to the cache, with the timeout it was written with. */
  datatype StatEntry = StatEntry(value: string, timeout: int)

  /**
   * The part of the cache provider the tracker touches: the index stored
   * under `Q_STAT` (absent until first written) and the stat entries.
   * An expired entry is simply missing from `entries`.
   */
  datatype Cache = Cache(index: Option<seq<string>>, entries: map<string, StatEntry>)

  /** `cache.get(key)` for a stat key. */
  function Lookup(entries: map<string, StatEntry>, key: string): Option<string> {
    if key in entries then Some(entries[key].value) else None
  }

  /** Python's `if stat:` on a looked-up stat: `None` and `""` are falsy. */
  predicate Truthy(stat: Option<string>) {
    stat.Some? && stat.value != ""
  }

  /** A stat whose lookup is truthy; any other index key counts as expired. */
  predicate Live(entries: map<string, StatEntry>, key: string) {
    Truthy(Lookup(entries, key))
  }

  /** `cache.get(Q_STAT, [])` */
  function StoredIndex(c: Cache): seq<string> {
    c.index.GetOr([])
  }

  /** The index `get_stats` reads is `None` or an empty list. */
  predicate IndexEmpty(c: Cache) {
    c.index.None? || |c.index.value| == 0
  }

  /** Expiry of one stat by the cache provider (its timeout elapsing or eviction). */
  function Expire(c: Cache, key: string): (c': Cache)
    ensures c'.index == c.index
    ensures !Live(c'.entries, key)
    ensures forall k :: k != key ==> Lookup(c'.entries, k) == Lookup(c.entries, k)
  {
    c.(entries := c.entries - {key})
  }

  // ---------------------------------------------------------------------
  // set_stat / get_stat

  /**
   * `Broker.set_stat(key, value, timeout)`: with a cache, appends `key` to the
   * index when absent, writes the index back and stores the value. The
   * source returns what `cache.set` returns, which is nothing.
   */
  function SetStat(cache: Option<Cache>, key: string, value: string, timeout: int): (after: Option<Cache>)
    ensures cache.None? ==> after.None?
    ensures cache.Some? ==> after.Some? && after.value.index.Some?
    ensures cache.Some? ==>
      var oldIndex := StoredIndex(cache.value);
      var newIndex := after.value.index.value;
      && key in newIndex
      && |oldIndex| <= |newIndex| <= |oldIndex| + 1
      && newIndex[..|oldIndex|] == oldIndex
      && multiset(newIndex) == (if key in oldIndex then multiset(oldIndex) else multiset(oldIndex) + multiset{key})
    ensures cache.Some? ==>
      && key in after.value.entries && after.value.entries[key] == StatEntry(value, timeout)
      && forall k :: k != key ==> Lookup(after.value.entries, k) == Lookup(cache.value.entries, k)
    ensures cache.Some? ==> after.value.entries == cache.value.entries[key := StatEntry(value, timeout)]
  {
    match cache
    case None => None
    case Some(c) =>
      var keyList := AppendIfAbsent(StoredIndex(c), key);
      Some(Cache(Some(keyList), c.entries[key := StatEntry(value, timeout)]))
  }

  /** `Broker.get_stat(key)`: `None` without a cache, else the stored value or `None`. */
  function GetStat(cache: Option<Cache>, key: string): (r: Option<string>)
    ensures cache.None? ==> r.None?
    ensures cache.Some? ==> (r.Some? <==> key in cache.value.entries)
    ensures r.Some? ==> r.value == cache.value.entries[key].value
  {
    match cache
    case None => None
    case Some(c) => Lookup(c.entries, key)
  }

  /** Writing a stat makes `get_stat` return it, and leaves every other stat as it was. */
  lemma SetThenGet(cache: Option<Cache>, key: string, value: string, timeout: int, other: string)
    requires cache.Some?
    requires other != key
    ensures GetStat(SetStat(cache, key, value, timeout), key) == Some(value)
    ensures GetStat(SetStat(cache, key, value, timeout), other) == GetStat(cache, other)
  {
  }

  /** Writing the same key twice leaves it in the index exactly once, and the index as after one write. */
  lemma SetStatTwice(cache: Option<Cache>, key: string, v1: string, t1: int, v2: string, t2: int)
    requires cache.Some? && multiset(StoredIndex(cache.value))[key] <= 1
    ensures var once := SetStat(cache, key, v1, t1);
            var twice := SetStat(once, key, v2, t2);
            && twice.value.index == once.value.index
            && multiset(twice.value.index.value)[key] == 1
  {
  }

  /** `set_stat` keeps an index free of duplicates. */
  lemma SetStatKeepsIndexUnique(cache: Option<Cache>, key: string, value: string, timeout: int)
    requires cache.Some? && NoDuplicates(StoredIndex(cache.value))
    ensures NoDuplicates(SetStat(cache, key, value, timeout).value.index.value)
  {
  }

  // ---------------------------------------------------------------------
  // get_stats, as the loop is written

  /** What happens to each index entry during the `for key in key_list` loop. */
  datatype Verdict =
    | Returned  // visited, value truthy: appended to the result
    | Pruned    // visited, value falsy: removed from the index
    | Skipped   // follows a removed entry: never visited, stays in the index

  /**
   * The verdicts of the loop over an index without duplicates: after each
   * `key_list.remove(key)` the list shifts left under the iterator, so the
   * entry after a removed one is never visited.
   */
  function Classify(keys: seq<string>, entries: map<string, StatEntry>): (v: seq<Verdict>)
    ensures |v| == |keys|
    ensures forall p :: 0 <= p < |v| && v[p] == Returned ==> Live(entries, keys[p])
    ensures forall p :: 0 <= p < |v| && v[p] == Pruned ==> !Live(entries, keys[p])
    ensures forall p :: 0 <= p < |v| ==> (v[p] == Skipped <==> 0 < p && v[p - 1] == Pruned)
    decreases |keys|
  {
    if keys == [] then []
    else if Live(entries, keys[0]) then
      var rest := Classify(keys[1..], entries);
      assert forall p :: 1 <= p < |keys| ==> ([Returned] + rest)[p] == rest[p - 1];
      [Returned] + rest
    else if |keys| == 1 then [Pruned]
    else
      var rest := Classify(keys[2..], entries);
      assert forall p :: 2 <= p < |keys| ==> ([Pruned, Skipped] + rest)[p] == rest[p - 2];
      [Pruned, Skipped] + rest
  }

  /** The keys whose verdict is not `Pruned`, in order. */
  function Kept(keys: seq<string>, v: seq<Verdict>): seq<string>
    requires |v| == |keys|
  {
    if keys == [] then [] else (if v[0] == Pruned then [] else [keys[0]]) + Kept(keys[1..], v[1..])
  }

  /** The stored values of the keys whose verdict is `Returned`, in order. */
  function ReturnedValues(keys: seq<string>, v: seq<Verdict>, entries: map<string, StatEntry>): seq<string>
    requires |v| == |keys|
  {
    if keys == [] then []
    else
      (if v[0] == Returned && keys[0] in entries then [entries[keys[0]].value] else [])
      + ReturnedValues(keys[1..], v[1..], entries)
  }

  /** The returned stats and the index written back. */
  datatype Scan = Scan(stats: seq<string>, index: seq<string>)

  /** `get_stats` on a non-empty index without duplicates, as the source's loop behaves. */
  function SkipScan(keys: seq<string>, entries: map<string, StatEntry>): Scan {
    var v := Classify(keys, entries);
    Scan(ReturnedValues(keys, v, entries), Kept(keys, v))
  }

  /** How `SkipScan` unfolds on its first one or two keys. */
  lemma {:induction false} SkipScanStep(keys: seq<string>, entries: map<string, StatEntry>)
    requires |keys| > 0
    ensures Live(entries, keys[0]) ==>
      var rest := SkipScan(keys[1..], entries);
      SkipScan(keys, entries) == Scan([entries[keys[0]].value] + rest.stats, [keys[0]] + rest.index)
    ensures !Live(entries, keys[0]) && |keys| == 1 ==> SkipScan(keys, entries) == Scan([], [])
    ensures !Live(entries, keys[0]) && |keys| > 1 ==>
      var rest := SkipScan(keys[2..], entries);
      SkipScan(keys, entries) == Scan(rest.stats, [keys[1]] + rest.index)
  {
    var v := Classify(keys, entries);
    if Live(entries, keys[0]) {
      assert v[1..] == Classify(keys[1..], entries);
    } else if |keys| == 1 {
      assert v == [Pruned];
      assert keys[1..] == [] && v[1..] == [];
      assert Kept(keys[1..], v[1..]) == [];
      assert ReturnedValues(keys[1..], v[1..], entries) == [];
      assert Kept(keys, v) == [];
      assert ReturnedValues(keys, v, entries) == [];
    } else {
      var v2 := Classify(keys[2..], entries);
      assert v == [Pruned, Skipped] + v2;
      assert v[1..][1..] == v2;
      assert keys[1..][1..] == keys[2..];
      assert Kept(keys[1..], v[1..]) == [keys[1]] + Kept(keys[2..], v2);
      assert ReturnedValues(keys[1..], v[1..], entries) == ReturnedValues(keys[2..], v2, entries);
    }
  }

  /** Positions of `keys` outside the embedding `pos` hold expired stats. */
  ghost predicate DroppedAreDead(keys: seq<string>, pos: seq<int>, entries: map<string, StatEntry>) {
    forall q :: 0 <= q < |keys| && q !in pos ==> !Live(entries, keys[q])
  }

  /** `stats[t]` is the truthy value of `keys[qs[t]]`, at increasing positions `qs`. */
  ghost predicate LiveValuesAt(keys: seq<string>, stats: seq<string>, entries: map<string, StatEntry>, qs: seq<int>) {
    && |qs| == |stats|
    && (forall t :: 0 <= t < |qs| ==>
          0 <= qs[t] < |keys| && Live(entries, keys[qs[t]]) && stats[t] == entries[keys[qs[t]]].value)
    && (forall t, u :: 0 <= t < u < |qs| ==> qs[t] < qs[u])
  }

  /**
   * What the loop of `get_stats` guarantees for any index, duplicates
   * included: the written-back index is a subsequence of the old one that
   * lacks only expired keys; the result lists truthy values in index order
   * and is no longer than the index; and without duplicates the outcome is
   * exactly `SkipScan`.
   */
  ghost predicate FaithfulScan(keys: seq<string>, entries: map<string, StatEntry>, stats: seq<string>, kept: seq<string>) {
    && |stats| <= |keys|
    && |kept| <= |keys|
    && (exists pos :: Embeds(kept, keys, pos) && DroppedAreDead(keys, pos, entries))
    && (exists qs :: LiveValuesAt(keys, stats, entries, qs))
    && (NoDuplicates(keys) ==> Scan(stats, kept) == SkipScan(keys, entries))
  }

  /**
   * For an index without duplicates: after visiting `i` positions of the
   * mutated `keyList`, finishing the loop yields `SkipScan` of the original.
   */
  ghost predicate ScanSoFar(keys: seq<string>, entries: map<string, StatEntry>, keyList: seq<string>, i: int, stats: seq<string>) {
    if 0 <= i <= |keyList| then
      var rest := SkipScan(keyList[i..], entries);
      SkipScan(keys, entries) == Scan(stats + rest.stats, keyList[..i] + rest.index)
    else
      SkipScan(keys, entries) == Scan(stats, keyList)
  }

  /** Visiting a live key appends its value and moves on. */
  lemma ScanSoFarLive(keys: seq<string>, entries: map<string, StatEntry>, keyList: seq<string>, i: int, stats: seq<string>)
    requires 0 <= i < |keyList| && Live(entries, keyList[i])
    requires ScanSoFar(keys, entries, keyList, i, stats)
    ensures ScanSoFar(keys, entries, keyList, i + 1, stats + [entries[keyList[i]].value])
  {
    SkipScanStep(keyList[i..], entries);
    assert keyList[i..][1..] == keyList[i + 1..];
    assert keyList[..i + 1] == keyList[..i] + [keyList[i]];
  }

  /** Visiting an expired key removes it, which shifts its successor under the iterator. */
  lemma ScanSoFarDead(keys: seq<string>, entries: map<string, StatEntry>, keyList: seq<string>, i: int, stats: seq<string>)
    requires 0 <= i < |keyList| && !Live(entries, keyList[i])
    requires ScanSoFar(keys, entries, keyList, i, stats)
    ensures ScanSoFar(keys, entries, keyList[..i] + keyList[i + 1..], i + 1, stats)
  {
    var keyList' := keyList[..i] + keyList[i + 1..];
    SkipScanStep(keyList[i..], entries);
    if i + 1 < |keyList| {
      assert keyList[i..][2..] == keyList[i + 2..];
      assert keyList[i..][1] == keyList[i + 1];
      assert keyList'[..i + 1] == keyList[..i] + [keyList[i + 1]];
      assert keyList'[i + 1..] == keyList[i + 2..];
    } else {
      assert keyList' == keyList[..i];
    }
  }

  /**
   * The state of the `for key in key_list` loop after `i` steps: `keyList`
   * is what remains of the index, embedded at `pos` with only expired keys
   * dropped; `stats` are live values found at increasing positions `qs`, all
   * before the positions still to be visited.
   */
  ghost predicate Visited(keys: seq<string>, entries: map<string, StatEntry>, keyList: seq<string>, i: int,
                          stats: seq<string>, pos: seq<int>, qs: seq<int>) {
    && |keyList| <= |keys| && 0 <= |stats| <= i <= |keys| && i <= |keyList| + 1
    && Embeds(keyList, keys, pos)
    && DroppedAreDead(keys, pos, entries)
    && LiveValuesAt(keys, stats, entries, qs)
    && (forall t, u :: 0 <= t < |qs| && i <= u < |pos| ==> qs[t] < pos[u])
    && (NoDuplicates(keys) ==> NoDuplicates(keyList) && ScanSoFar(keys, entries, keyList, i, stats))
  }

  /** Before the loop nothing is visited. */
  lemma VisitStart(keys: seq<string>, entries: map<string, StatEntry>) returns (pos: seq<int>)
    ensures Visited(keys, entries, keys, 0, [], pos, [])
  {
    pos := EmbedsSelf(keys);
    assert keys[..0] == [] && keys[0..] == keys;
    var whole := SkipScan(keys, entries);
    assert whole == Scan([] + SkipScan(keys[0..], entries).stats, keys[..0] + SkipScan(keys[0..], entries).index);
    assert ScanSoFar(keys, entries, keys, 0, []);
  }

  /** One step on a key whose stat is truthy: `stats.append(stat)`. */
  lemma VisitLive(keys: seq<string>, entries: map<string, StatEntry>, keyList: seq<string>, i: int,
                  stats: seq<string>, pos: seq<int>, qs: seq<int>)
    requires Visited(keys, entries, keyList, i, stats, pos, qs)
    requires i < |keyList| && Live(entries, keyList[i])
    ensures Visited(keys, entries, keyList, i + 1, stats + [entries[keyList[i]].value], pos, qs + [pos[i]])
  {
    if NoDuplicates(keys) {
      ScanSoFarLive(keys, entries, keyList, i, stats);
    }
    var qs' := qs + [pos[i]];
    var stats' := stats + [entries[keyList[i]].value];
    assert LiveValuesAt(keys, stats', entries, qs') by {
      forall t | 0 <= t < |qs'|
        ensures 0 <= qs'[t] < |keys| && Live(entries, keys[qs'[t]]) && stats'[t] == entries[keys[qs'[t]]].value
      {
        if t == |qs| {
          assert keyList[i] == keys[pos[i]];
        }
      }
    }
  }

  /** Removing an expired key drops only an expired position from the embedding. */
  lemma DeadKeepsEmbedding(keys: seq<string>, entries: map<string, StatEntry>, keyList: seq<string>, i: int, pos: seq<int>)
    requires Embeds(keyList, keys, pos) && DroppedAreDead(keys, pos, entries)
    requires 0 <= i < |keyList| && !Live(entries, keyList[i])
    ensures var p := FirstIndex(keyList, keyList[i]);
            && Embeds(RemoveFirst(keyList, keyList[i]), keys, pos[..p] + pos[p + 1..])
            && DroppedAreDead(keys, pos[..p] + pos[p + 1..], entries)
  {
    var p := FirstIndex(keyList, keyList[i]);
    var pos' := pos[..p] + pos[p + 1..];
    EmbedsRemoveAt(keyList, keys, pos, p);
    forall q | 0 <= q < |keys| && q !in pos'
      ensures !Live(entries, keys[q])
    {
      if q in pos {
        assert q == pos[p] && keys[pos[p]] == keyList[p];
      }
    }
  }

  /** Removing at or before the iterator keeps the found stats before the unvisited positions. */
  lemma DeadKeepsOrder(i: int, pos: seq<int>, qs: seq<int>, p: int)
    requires 0 <= p <= i < |pos|
    requires forall t, u :: 0 <= t < |qs| && i <= u < |pos| ==> qs[t] < pos[u]
    ensures var pos' := pos[..p] + pos[p + 1..];
            forall t, u :: 0 <= t < |qs| && i + 1 <= u < |pos'| ==> qs[t] < pos'[u]
  {
    var pos' := pos[..p] + pos[p + 1..];
    forall t, u | 0 <= t < |qs| && i + 1 <= u < |pos'|
      ensures qs[t] < pos'[u]
    {
      assert pos'[u] == pos[u + 1];
    }
  }

  /** One step on an expired key: `key_list.remove(key)`. */
  lemma VisitDead(keys: seq<string>, entries: map<string, StatEntry>, keyList: seq<string>, i: int,
                  stats: seq<string>, pos: seq<int>, qs: seq<int>)
    requires Visited(keys, entries, keyList, i, stats, pos, qs)
    requires i < |keyList| && !Live(entries, keyList[i])
    ensures var p := FirstIndex(keyList, keyList[i]);
            Visited(keys, entries, RemoveFirst(keyList, keyList[i]), i + 1, stats, pos[..p] + pos[p + 1..], qs)
  {
    var key := keyList[i];
    var p := FirstIndex(keyList, key);
    DeadKeepsEmbedding(keys, entries, keyList, i, pos);
    DeadKeepsOrder(i, pos, qs, p);
    var keyList' := RemoveFirst(keyList, key);
    if NoDuplicates(keys) {
      FirstIndexUnique(keyList, i);
      assert keyList' == keyList[..i] + keyList[i + 1..];
      NoDuplicatesRemoveAt(keyList, i);
      ScanSoFarDead(keys, entries, keyList, i, stats);
    }
  }

  /** When the iterator runs off the end, the loop has done what `FaithfulScan` says. */
  lemma VisitDone(keys: seq<string>, entries: map<string, StatEntry>, keyList: seq<string>, i: int,
                  stats: seq<string>, pos: seq<int>, qs: seq<int>)
    requires Visited(keys, entries, keyList, i, stats, pos, qs)
    requires i >= |keyList|
    ensures FaithfulScan(keys, entries, stats, keyList)
  {
    if NoDuplicates(keys) && i == |keyList| {
      assert keyList[i..] == [] && keyList[..i] == keyList;
      assert SkipScan([], entries) == Scan([], []);
    }
  }

  /**
   * One turn of `for key in key_list`: look the key up; append a truthy
   * stat, otherwise `key_list.remove(key)`; the iterator then advances.
   */
  method VisitNext(ghost keys: seq<string>, entries: map<string, StatEntry>, keyList: seq<string>, i: nat,
                   stats: seq<string>, ghost pos: seq<int>, ghost qs: seq<int>)
    returns (keyList': seq<string>, stats': seq<string>, ghost pos': seq<int>, ghost qs': seq<int>)
    requires Visited(keys, entries, keyList, i, stats, pos, qs)
    requires i < |keyList|
    ensures Visited(keys, entries, keyList', i + 1, stats', pos', qs')
    ensures |keyList'| <= |keyList|
    ensures Truthy(Lookup(entries, keyList[i])) ==> keyList' == keyList && stats' == stats + [Lookup(entries, keyList[i]).value]
    ensures !Truthy(Lookup(entries, keyList[i])) ==> keyList' == RemoveFirst(keyList, keyList[i]) && stats' == stats
  {
    var key := keyList[i];
    var stat := Lookup(entries, key);
    if Truthy(stat) {
      VisitLive(keys, entries, keyList, i, stats, pos, qs);
      keyList', stats', pos', qs' := keyList, stats + [stat.value], pos, qs + [pos[i]];
    } else {
      VisitDead(keys, entries, keyList, i, stats, pos, qs);
      var p := FirstIndex(keyList, key);
      keyList', stats', pos', qs' := RemoveFirst(keyList, key), stats, pos[..p] + pos[p + 1..], qs;
    }
  }

  /**
   * The body of `get_stats` after the empty-index check: a `for` loop over
   * `key_list` that calls `key_list.remove(key)` on the list it iterates.
   * Python's list iterator keeps a position `i` and stops once `i` reaches
   * the current length.
   */
  method ScanIndex(keys: seq<string>, entries: map<string, StatEntry>) returns (stats: seq<string>, kept: seq<string>)
    ensures FaithfulScan(keys, entries, stats, kept)
  {
    var keyList := keys;
    var i := 0;
    stats := [];
    ghost var pos := VisitStart(keys, entries);
    ghost var qs: seq<int> := [];
    while i < |keyList|
      invariant Visited(keys, entries, keyList, i, stats, pos, qs)
      decreases |keyList| - i
    {
      keyList, stats, pos, qs := VisitNext(keys, entries, keyList, i, stats, pos, qs);
      i := i + 1;
    }
    VisitDone(keys, entries, keyList, i, stats, pos, qs);
    kept := keyList;
  }

  /**
   * `Broker.get_stats(pattern)`: `None` without a cache; `[]` and no write
   * when the index is absent or empty; otherwise the loop of `ScanIndex`,
   * whose pruned index is written back. `pattern` is never used.
   */
  method GetStats(cache: Option<Cache>, pattern: string) returns (r: Option<seq<string>>, after: Option<Cache>)
    ensures cache.None? ==> r.None? && after.None?
    ensures cache.Some? && IndexEmpty(cache.value) ==> r == Some([]) && after == cache
    ensures cache.Some? && !IndexEmpty(cache.value) ==>
      && r.Some? && after.Some? && after.value.index.Some?
      && after.value.entries == cache.value.entries
      && FaithfulScan(cache.value.index.value, cache.value.entries, r.value, after.value.index.value)
  {
    match cache
    case None =>
      return None, None;
    case Some(c) =>
      if IndexEmpty(c) {
        return Some([]), cache;
      }
      var stats, keyList := ScanIndex(c.index.value, c.entries);
      return Some(stats), Some(c.(index := Some(keyList)));
  }

  // ---------------------------------------------------------------------
  // Consequences of the skip-after-remove iteration

  /** A key that is not pruned stays in the written-back index. */
  lemma {:induction false} NotPrunedIsKept(keys: seq<string>, v: seq<Verdict>, p: int)
    requires |v| == |keys| && 0 <= p < |keys| && v[p] != Pruned
    ensures keys[p] in Kept(keys, v)
    decreases |keys|
  {
    if p > 0 {
      NotPrunedIsKept(keys[1..], v[1..], p - 1);
    }
  }

  /** `Kept` only keeps keys of the index. */
  lemma {:induction false} KeptFromKeys(keys: seq<string>, v: seq<Verdict>, k: string)
    requires |v| == |keys| && k in Kept(keys, v)
    ensures exists p :: 0 <= p < |keys| && keys[p] == k && v[p] != Pruned
    decreases |keys|
  {
    if !(v[0] != Pruned && keys[0] == k) {
      KeptFromKeys(keys[1..], v[1..], k);
      var p :| 0 <= p < |keys| - 1 && keys[1..][p] == k && v[1..][p] != Pruned;
      assert keys[p + 1] == k && v[p + 1] != Pruned;
    }
  }

  /**
   * In an index without duplicates, a key leaves the index exactly when it is
   * visited and expired; in particular an expired key right after another
   * expired key is skipped and survives.
   */
  lemma PrunedIffVisitedAndExpired(keys: seq<string>, entries: map<string, StatEntry>, p: int)
    requires NoDuplicates(keys) && 0 <= p < |keys|
    ensures var v := Classify(keys, entries);
            keys[p] !in SkipScan(keys, entries).index
            <==> (p == 0 || v[p - 1] != Pruned) && !Live(entries, keys[p])
  {
    var v := Classify(keys, entries);
    if v[p] == Pruned {
      if keys[p] in Kept(keys, v) {
        KeptFromKeys(keys, v, keys[p]);
      }
    } else {
      NotPrunedIsKept(keys, v, p);
    }
  }

  /**
   * When a stat expires, `get_stats` drops its key exactly when the key
   * before it is not itself dropped in the same call.
   */
  lemma ExpiredStatPrunedUnlessSkipped(c: Cache, p: int)
    requires c.index.Some? && NoDuplicates(c.index.value) && 0 <= p < |c.index.value|
    ensures var keys := c.index.value;
            var c' := Expire(c, keys[p]);
            keys[p] !in SkipScan(keys, c'.entries).index
            <==> (p == 0 || Classify(keys, c'.entries)[p - 1] != Pruned)
  {
    var keys := c.index.value;
    PrunedIffVisitedAndExpired(keys, Expire(c, keys[p]).entries, p);
  }

  /** The index `get_stats` writes back keeps having no duplicates. */
  lemma ScanKeepsIndexUnique(keys: seq<string>, entries: map<string, StatEntry>, stats: seq<string>, kept: seq<string>)
    requires NoDuplicates(keys) && FaithfulScan(keys, entries, stats, kept)
    ensures NoDuplicates(kept)
  {
    var pos :| Embeds(kept, keys, pos) && DroppedAreDead(keys, pos, entries);
    EmbedsNoDuplicates(kept, keys, pos);
  }

  // ---------------------------------------------------------------------
  // get_stats as its documentation describes it

  /** The keys whose stat is still live, in index order. */
  function LiveKeys(keys: seq<string>, entries: map<string, StatEntry>): (r: seq<string>)
    ensures forall k :: k in r <==> k in keys && Live(entries, k)
    ensures |r| <= |keys|
  {
    if keys == [] then []
    else (if Live(entries, keys[0]) then [keys[0]] else []) + LiveKeys(keys[1..], entries)
  }

  /** The stored values of `keys`, which must all be present. */
  function ValuesOf(keys: seq<string>, entries: map<string, StatEntry>): (r: seq<string>)
    requires forall k :: k in keys ==> k in entries
    ensures |r| == |keys|
    ensures forall t :: 0 <= t < |keys| ==> r[t] == entries[keys[t]].value
  {
    if keys == [] then [] else [entries[keys[0]].value] + ValuesOf(keys[1..], entries)
  }

  /** "Returns a list of all cluster stats": every live stat, and only live keys kept. */
  function IntendedScan(keys: seq<string>, entries: map<string, StatEntry>): (s: Scan)
    ensures forall k :: k in s.index <==> k in keys && Live(entries, k)
    ensures IsSubsequence(s.index, keys)
    ensures forall k :: k in s.index ==> k in entries
    ensures s.stats == ValuesOf(s.index, entries)
    ensures forall t :: 0 <= t < |s.stats| ==> s.stats[t] != ""
  {
    var live := LiveKeys(keys, entries);
    LiveKeysSubsequence(keys, entries);
    assert forall k :: k in live ==> Live(entries, k) && k in entries;
    var values := ValuesOf(live, entries);
    assert forall t :: 0 <= t < |values| ==> live[t] in live && values[t] == entries[live[t]].value;
    Scan(values, live)
  }

  /** `LiveKeys` keeps the index's order. */
  lemma {:induction false} LiveKeysSubsequence(keys: seq<string>, entries: map<string, StatEntry>)
    ensures IsSubsequence(LiveKeys(keys, entries), keys)
    decreases |keys|
  {
    if keys != [] {
      LiveKeysSubsequence(keys[1..], entries);
      var pos :| Embeds(LiveKeys(keys[1..], entries), keys[1..], pos);
      var rest := LiveKeys(keys[1..], entries);
      var shifted := seq(|pos|, t requires 0 <= t < |pos| => pos[t] + 1);
      assert Embeds(rest, keys, shifted) by {
        forall t | 0 <= t < |shifted|
          ensures 0 <= shifted[t] < |keys| && rest[t] == keys[shifted[t]]
        {
          assert rest[t] == keys[1..][pos[t]];
        }
      }
      if Live(entries, keys[0]) {
        var all := [0] + shifted;
        assert LiveKeys(keys, entries) == [keys[0]] + rest;
        forall t | 0 < t < |all|
          ensures all[t] == shifted[t - 1]
        {
        }
        assert Embeds(LiveKeys(keys, entries), keys, all);
      } else {
        assert LiveKeys(keys, entries) == rest;
        assert Embeds(LiveKeys(keys, entries), keys, shifted);
      }
    } else {
      assert Embeds(LiveKeys(keys, entries), keys, []);
    }
  }

  /** `get_stats` with the skip removed: `None` without a cache, `[]` on an empty index. */
  function GetStatsIntended(cache: Option<Cache>): (res: (Option<seq<string>>, Option<Cache>))
    ensures cache.None? ==> res == (None, None)
    ensures cache.Some? && IndexEmpty(cache.value) ==> res == (Some([]), cache)
    ensures cache.Some? && !IndexEmpty(cache.value) ==>
      var keys := cache.value.index.value;
      && res.1.Some? && res.1.value.entries == cache.value.entries && res.1.value.index.Some?
      && res.0.Some?
      && (forall k :: k in res.1.value.index.value <==> k in keys && Live(cache.value.entries, k))
      && IsSubsequence(res.1.value.index.value, keys)
      && res.0.value == ValuesOf(res.1.value.index.value, cache.value.entries)
  {
    match cache
    case None => (None, None)
    case Some(c) =>
      if IndexEmpty(c) then (Some([]), cache)
      else
        var s := IntendedScan(c.index.value, c.entries);
        (Some(s.stats), Some(c.(index := Some(s.index))))
  }

  /** With the intended listing, a freshly written non-empty stat is always listed. */
  lemma SetThenListIntended(cache: Option<Cache>, key: string, value: string, timeout: int)
    requires cache.Some? && value != ""
    ensures var res := GetStatsIntended(SetStat(cache, key, value, timeout));
            value in res.0.value
  {
    var after := SetStat(cache, key, value, timeout).value;
    var live := IntendedScan(after.index.value, after.entries).index;
    assert key in live;
    var t :| 0 <= t < |live| && live[t] == key;
    assert ValuesOf(live, after.entries)[t] == value;
  }

  /** The two listings agree when every key but possibly the last is live. */
  lemma {:induction false} SkipScanAgreesWithoutInnerExpiry(keys: seq<string>, entries: map<string, StatEntry>)
    requires forall p :: 0 <= p < |keys| - 1 ==> Live(entries, keys[p])
    ensures SkipScan(keys, entries) == IntendedScan(keys, entries)
    decreases |keys|
  {
    if keys != [] {
      SkipScanStep(keys, entries);
      if |keys| > 1 {
        SkipScanAgreesWithoutInnerExpiry(keys[1..], entries);
      }
    }
  }

  /** The skip loses a live stat: an expired key followed by a live one lists nothing. */
  lemma SkipLosesLiveStat()
    ensures var entries := map["b" := StatEntry("up", 60)];
            && Live(entries, "b")
            && SkipScan(["a", "b"], entries) == Scan([], ["b"])
            && IntendedScan(["a", "b"], entries) == Scan(["up"], ["b"])
  {
    var entries := map["b" := StatEntry("up", 60)];
    var keys := ["a", "b"];
    SkipScanStep(keys, entries);
    assert keys[2..] == [];
    assert !Live(entries, "a");
    assert LiveKeys(keys, entries) == ["b"] by {
      assert keys[1..] == ["b"];
      assert keys[1..][1..] == [];
    }
  }
}
