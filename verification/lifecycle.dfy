/**
 * Construction of a `Broker` and its pickling: `__getstate__` keeps only the
 * queue name and the info string; `__setstate__` re-derives the connection
 * and the cache.
 */
module BrokerLifecycle {
  import opened Wrappers
  import opened BrokerConfig
  import opened StatsTracker
  import opened BrokerFactory

  /**
   * What a process resolves from its settings: `Conf.CLUSTER_NAME`, and the
   * cache `caches[Conf.CACHE]`, `None` when that lookup raises
   * `InvalidCacheBackendError`.
   */
  datatype Env = Env(clusterName: string, cache: Option<Cache>)

  /** A broker instance: queue name, connection handle, cache handle and `_info`. */
  datatype Broker = Broker(listKey: string, connection: int, cache: Option<Cache>, info: Option<string>)

  /** The durable part of a broker, as `__getstate__` returns it. */
  datatype Snapshot = Snapshot(listKey: string, info: Option<string>)

  /** `Broker.get_connection`: the base class opens nothing and returns `0`. */
  function GetConnection(listKey: string): (connection: int)
    ensures connection == 0
  {
    0
  }

  /** `Broker.get_cache`. */
  function GetCache(env: Env): (cache: Option<Cache>)
    ensures cache == env.cache
  {
    env.cache
  }

  /** `Broker.__init__(list_key)`. */
  function NewBroker(listKey: Option<string>, env: Env): (b: Broker)
    ensures b.info.None?
    ensures listKey.Some? && listKey.value != "" ==> b.listKey == listKey.value
    ensures listKey.None? || listKey.value == "" ==> b.listKey == env.clusterName
    ensures b.cache == GetCache(env) && b.connection == GetConnection(b.listKey)
  {
    var name := QueueName(listKey, env.clusterName);
    Broker(name, GetConnection(name), GetCache(env), None)
  }

  /** `Broker.info()`. */
  function Info(b: Broker): (info: Option<string>)
    ensures info == b.info
  {
    b.info
  }

  /** `Broker.__getstate__`. */
  function GetState(b: Broker): (s: Snapshot)
    ensures s.listKey == b.listKey && s.info == Info(b)
  {
    Snapshot(b.listKey, b.info)
  }

  /** `Broker.__setstate__(state)` in the process given by `env`. */
  function SetState(s: Snapshot, env: Env): (b: Broker)
    ensures b.listKey == s.listKey && Info(b) == s.info
    ensures b.connection == GetConnection(s.listKey)
    ensures b.cache == GetCache(env)
  {
    Broker(s.listKey, GetConnection(s.listKey), GetCache(env), s.info)
  }

  /**
   * Pickling and unpickling keeps the queue name and what `info()` returns,
   * while the connection and cache come from the receiving process.
   */
  lemma SnapshotRoundTrip(b: Broker, env: Env)
    ensures var b' := SetState(GetState(b), env);
            && b'.listKey == b.listKey
            && Info(b') == Info(b)
            && b'.cache == GetCache(env)
            && b'.connection == GetConnection(b.listKey)
  {
  }

  /** Restoring a snapshot and taking a new one gives back the same snapshot. */
  lemma RestoreSnapshotRoundTrip(s: Snapshot, env: Env)
    ensures GetState(SetState(s, env)) == s
  {
  }

  /** A fresh broker shipped to a process with the same settings arrives unchanged. */
  lemma FreshBrokerSurvivesPickling(listKey: Option<string>, env: Env)
    ensures SetState(GetState(NewBroker(listKey, env)), env) == NewBroker(listKey, env)
    ensures Info(SetState(GetState(NewBroker(listKey, env)), env)).None?
  {
  }

  /**
   * The broker `get_broker` hands out is built under the queue name the
   * constructor would choose for the same argument.
   */
  lemma FactoryAndConstructorAgreeOnName(listKey: Option<string>, conf: Config, env: Env)
    requires env.clusterName == conf.clusterName
    requires GetBroker(listKey, conf).Success?
    ensures NewBroker(Some(GetBroker(listKey, conf).value.listKey), env).listKey == NewBroker(listKey, env).listKey
  {
    QueueNameTwice(listKey, conf.clusterName);
  }
}
