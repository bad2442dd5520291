# django-q broker core in Dafny

This project models the base `Broker` class and the `get_broker` factory of
django-q (`django_q/brokers/__init__.py`). It covers three parts:

- **The cluster statistics tracker.** `set_stat`, `get_stat` and `get_stats` keep stat values in the cache provider.
  The list of known stat keys (the *index*) is stored under `Conf.Q_STAT`.
  The cache is a record `Cache(index, entries)`. `index` is absent until it is first written.
  "No cache configured" is `Option.None`.
  A stat expires when its entry is removed explicitly (`StatsTracker.Expire`). Time is not modelled.
- **Backend selection.** `get_broker` first defaults the queue name.
  It then tries a fixed chain: custom class, IronMQ, SQS (a dict only), ORM, Mongo, Pub/Sub.
  If none matches, it falls back to Redis.
  Settings are modelled with Python truthiness (`BrokerConfig.Setting`).
- **Construction and pickling.** `Broker.__init__` defaults the queue name and sets `_info` to `None`.
  `__getstate__`/`__setstate__` keep only `(list_key, _info)`.
  The connection and the cache are derived again in the receiving process.

Modules: `Wrappers` (Option, Result), `Sequences` (list operations:
append-if-absent, `list.remove`, subsequence embeddings), `StatsTracker`,
`BrokerConfig`, `BrokerFactory` and `BrokerLifecycle`.

`get_stats` is modelled as the code behaves, not as its docstring says.
The loop (`StatsTracker.ScanIndex` with `VisitNext`) calls `key_list.remove(key)` on the list it is iterating over.
So after each removal the next entry moves into the slot the iterator has already passed.
That entry is never looked up: it is neither returned nor pruned.
`StatsTracker.Classify` names what happens at each position: `Returned`, `Pruned` or `Skipped`.
For an index without duplicates, `SkipScan` gives the exact outcome.
For any index, `FaithfulScan` states the general guarantees.
Two places where the code differs from a plain reading of its description, modelled as the code does it:

- A stat whose value is the empty string counts as expired (`if stat:`).
- Expired keys are pruned only when they are actually visited.

## Model

| member | source | states |
|---|---|---|
| `StatsTracker.SetStat` | django_q/brokers/__init__.py:98-111 | with no cache, nothing happens. Otherwise the old index stays as a prefix of the new one, `key` is in the new index, and the key's multiplicity becomes 1 only if it was absent. The entries become the old entries with `key` mapped to the value and timeout, so every other stat and its timeout is unchanged |
| `StatsTracker.GetStat` | django_q/brokers/__init__.py:113-121 | `None` without a cache. Otherwise there is a value exactly when the key is stored, and it is the stored value |
| `StatsTracker.SetThenGet` | django_q/brokers/__init__.py:105-121 | after `set_stat(k, v, t)` with a cache, `get_stat(k)` returns `v`, and `get_stat` of any other key is unchanged |
| `StatsTracker.SetStatTwice` | django_q/brokers/__init__.py:107-110 | writing the same key twice gives the same index as writing it once, with the key present exactly once |
| `StatsTracker.SetStatKeepsIndexUnique` | django_q/brokers/__init__.py:107-110 | `set_stat` keeps an index without duplicates duplicate-free |
| `StatsTracker.Classify` | django_q/brokers/__init__.py:134-140 | for each position: `Returned` only if live, `Pruned` only if expired, and `Skipped` exactly when the previous position was pruned |
| `StatsTracker.VisitNext` | django_q/brokers/__init__.py:135-140 | one loop turn: a truthy stat is appended and the list is unchanged. A falsy one removes the first occurrence of its key. The loop-state invariant is kept with the iterator one step further |
| `StatsTracker.ScanIndex` | django_q/brokers/__init__.py:134-141 | for any index: the index written back is a subsequence of the old one, and only expired keys are missing. The result holds truthy values of index keys at increasing positions and is no longer than the index. Without duplicates, the outcome is exactly `SkipScan` |
| `StatsTracker.GetStats` | django_q/brokers/__init__.py:123-142 | `None` and no change without a cache. `[]` and no write for an absent or empty index. Otherwise the outcome of the loop, with its pruned index written back and the stat entries untouched |
| `StatsTracker.PrunedIffVisitedAndExpired` | django_q/brokers/__init__.py:135-141 | in an index without duplicates, a key leaves the index exactly when it is expired and the key before it was not pruned |
| `StatsTracker.ExpiredStatPrunedUnlessSkipped` | django_q/brokers/__init__.py:135-141 | after one stat expires, `get_stats` drops its key exactly when the preceding key is not pruned in the same call |
| `StatsTracker.ScanKeepsIndexUnique` | django_q/brokers/__init__.py:135-141 | the index written back by `get_stats` keeps having no duplicates |
| `StatsTracker.SkipScanAgreesWithoutInnerExpiry` | django_q/brokers/__init__.py:135-140 | when every key but the last is live, the loop's outcome is the same as the intended filter |
| `StatsTracker.SkipLosesLiveStat` | django_q/brokers/__init__.py:135-140 | for the index `["a", "b"]` with `a` expired and `b` live, the loop returns nothing and keeps `["b"]`. The intended listing returns `b`'s value |
| `StatsTracker.IntendedScan` | django_q/brokers/__init__.py:123-128 | keeps exactly the live keys, as a subsequence of the index (so in index order), and returns their values in that order. No returned value is falsy |
| `StatsTracker.GetStatsIntended` | django_q/brokers/__init__.py:123-142 | `get_stats` without the skip: same no-cache and empty-index cases. The pruned index holds exactly the live keys as a subsequence, and the result is their values |
| `StatsTracker.SetThenListIntended` | django_q/brokers/__init__.py:105-138 | a stat just written with a non-empty value is always listed by the intended `get_stats` |
| `Sequences.AppendIfAbsent` | django_q/brokers/__init__.py:108-109 | the element ends up in the list, the old list stays a prefix, at most one element is added and the multiset changes only by the new element. No duplicates are introduced |
| `Sequences.RemoveFirst` | django_q/brokers/__init__.py:140 | `list.remove` drops exactly the first occurrence and shortens the list by one |
| `BrokerConfig.QueueName` | django_q/brokers/__init__.py:172 | a missing or empty queue name becomes the cluster name. Any other name is kept |
| `BrokerConfig.QueueNameTwice` | django_q/brokers/__init__.py:12 | defaulting a name that is already defaulted changes nothing |
| `BrokerFactory.LastDot` | django_q/brokers/__init__.py:175 | the position found holds a dot with no dot after it. No position means the path has no dot |
| `BrokerFactory.RSplitDot` | django_q/brokers/__init__.py:175 | `rsplit(".", 1)` unpacks only when the path has a dot. Module, dot and attribute concatenate back to the path, and the attribute has no dot |
| `BrokerFactory.GetBroker` | django_q/brokers/__init__.py:165-208 | the chosen backend's condition holds and every earlier condition in the chain fails. The queue name is defaulted. It fails exactly when a truthy class setting is not a string or has no dot. A custom backend's module and class reassemble the configured path |
| `BrokerFactory.PlainSelectsRedis` | django_q/brokers/__init__.py:204-208 | with nothing configured, every queue name gets Redis |
| `BrokerFactory.EarlierRequestWins` | django_q/brokers/__init__.py:173-208 | the selected backend never ranks below any requested mode |
| `BrokerFactory.EmptySqsDictSelectsSqs` | django_q/brokers/__init__.py:185-188 | an empty dict for SQS is falsy but still selects SQS, because the test is on the type |
| `BrokerLifecycle.NewBroker` | django_q/brokers/__init__.py:10-16 | the queue name is defaulted, `_info` starts as `None`, and the cache and connection come from the environment |
| `BrokerLifecycle.GetConnection` | django_q/brokers/__init__.py:155-162 | the base class's connection is `0` for every queue name |
| `BrokerLifecycle.GetCache` | django_q/brokers/__init__.py:144-153 | the cache is whatever the process resolves for `Conf.CACHE`, absent when that lookup fails |
| `BrokerLifecycle.Info` | django_q/brokers/__init__.py:92-96 | `info()` returns the stored `_info` |
| `BrokerLifecycle.GetState` | django_q/brokers/__init__.py:18-19 | the snapshot holds the queue name and what `info()` returns, and nothing else |
| `BrokerLifecycle.SetState` | django_q/brokers/__init__.py:21-24 | the queue name and info come from the snapshot. The connection is `get_connection` of that name and the cache is the receiving process's `get_cache` |
| `BrokerLifecycle.SnapshotRoundTrip` | django_q/brokers/__init__.py:18-24 | pickling then unpickling keeps `list_key` and `info()`. The cache and connection are the receiving process's own |
| `BrokerLifecycle.RestoreSnapshotRoundTrip` | django_q/brokers/__init__.py:18-22 | unpickling then pickling gives back the same state |
| `BrokerLifecycle.FreshBrokerSurvivesPickling` | django_q/brokers/__init__.py:10-24 | a new broker pickled into a process with the same settings arrives equal, with no info |
| `BrokerLifecycle.FactoryAndConstructorAgreeOnName` | django_q/brokers/__init__.py:172-178 | the name `get_broker` passes on is the name the constructor would pick for the original argument |

## Findings

| source | as written | input that shows it | evidently intended | confidence | as-written member | corrected member |
|---|---|---|---|---|---|---|
| django_q/brokers/__init__.py:135-140 | `key_list.remove(key)` inside `for key in key_list` shifts the next key under the iterator. That key is never looked up | index `["a", "b"]`, `a` expired, `b` stored as `"up"`: the result is `[]` and the index becomes `["b"]` | `["up"]` is returned and the index becomes `["b"]`. Every live stat is listed and every expired key is pruned | not executed; high | `StatsTracker.SkipLosesLiveStat` | `StatsTracker.GetStatsIntended` |

The corrected listing is `IntendedScan`. It is proved to keep exactly the live keys, as a subsequence, and to return their values.
`SkipScanAgreesWithoutInnerExpiry` shows that the two listings differ only when an expired key is followed by another key.

## Left out

- The abstract operations `enqueue`, `dequeue`, `queue_size`, `lock_size`, `delete_queue`, `purge_queue`, `delete`, `acknowledge`, `fail` and `ping` are not modelled. In the base class their bodies are empty.
- Dynamic loading of a custom class (`importlib.import_module`, `getattr`) and the concrete backend modules are not modelled. A backend is only a tag. Import failures are not modelled. These include a path with an empty module or attribute part, such as `.Foo` or `pkg.`: `import_module("")` or `getattr(m, "")` would raise, but `GetBroker` selects `Custom` for such a path.
- `get_connection` is modelled only as the base class behaves: it returns `0`. Subclasses open real connections, and that I/O is outside the model.
- `get_cache` is modelled as a cache that is present or absent, taken from the environment. Django's cache registry is not modelled.
- Cache timeouts and eviction are not modelled. A stat's timeout is recorded but never elapses, and expiry is an explicit removal. Writing the index without a timeout is a plain write.
- Concurrent writers racing on the index are not modelled: the model is single-threaded. The lost update of two racing `set_stat` calls cannot be expressed.
- The `pattern` argument of `get_stats` is accepted and ignored, as in the source.
- A stat key equal to `Conf.Q_STAT` is not modelled: the index and the stat entries are separate fields.
- BrokerFactory.GetBroker: a custom class path with an empty module or attribute part succeeds as `Custom`, where the source fails when it imports it. Import is outside the model.
- StatsTracker.ScanIndex: for an index with duplicate keys, the result is bounded (subsequence, only expired keys dropped, live values in order) but not given exactly. `set_stat` never creates such an index.
- StatsTracker.GetStats: same bound as `ScanIndex` for an index with duplicates.
- `set_stat` returns what `cache.set` returns, which is nothing. The model returns only the new cache state.
