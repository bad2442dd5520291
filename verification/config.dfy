/** The settings of `Conf` that broker selection and construction read. */
module BrokerConfig {
  import opened Wrappers

  /** A settings value, as far as Python's truthiness and `type(...) == dict` can tell. */
  datatype Setting =
    | Unset                            // None
    | Flag(on: bool)
    | Number(n: int)
    | Text(text: string)
    | Table(fields: map<string, string>)  // a dict

  /** Python's truth value of a setting. */
  predicate Truthy(s: Setting) {
    match s
    case Unset => false
    case Flag(on) => on
    case Number(n) => n != 0
    case Text(t) => t != ""
    case Table(fields) => |fields| != 0
  }

  /**
   * `Conf.CLUSTER_NAME` and the backend selectors `BROKER_CLASS`, `IRON_MQ`,
   * `SQS`, `ORM`, `MONGO` and `PUBSUB`.
   */
  datatype Config = Config(
    clusterName: string,
    brokerClass: Setting,
    ironMq: Setting,
    sqs: Setting,
    orm: Setting,
    mongo: Setting,
    pubSub: Setting)

  /** A configuration that selects no backend in particular. */
  function Plain(clusterName: string): Config {
    Config(clusterName, Unset, Unset, Unset, Unset, Unset, Unset)
  }

  /** `list_key or Conf.CLUSTER_NAME`: a missing or empty queue name falls back to the cluster name. */
  function QueueName(listKey: Option<string>, clusterName: string): (name: string)
    ensures listKey.Some? && listKey.value != "" ==> name == listKey.value
    ensures listKey.None? || listKey.value == "" ==> name == clusterName
  {
    match listKey
    case Some(k) => if k != "" then k else clusterName
    case None => clusterName
  }

  /**
   * `get_broker` defaults the name and the backend constructor defaults it
   * again; the second defaulting changes nothing.
   */
  lemma QueueNameTwice(listKey: Option<string>, clusterName: string)
    ensures QueueName(Some(QueueName(listKey, clusterName)), clusterName) == QueueName(listKey, clusterName)
  {
  }
}
