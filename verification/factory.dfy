/** `get_broker`: the choice of backend for a queue, first match wins. */
module BrokerFactory {
  import opened Wrappers
  import opened BrokerConfig

  /** The backend a `get_broker` call constructs; a custom class is named by module and attribute. */
  datatype Backend =
    | Custom(moduleName: string, className: string)
    | IronMq
    | Sqs
    | Orm
    | Mongo
    | PubSub
    | Redis

  /** The configuration modes, one per branch of the selection chain. */
  datatype Mode = CustomMode | IronMqMode | SqsMode | OrmMode | MongoMode | PubSubMode | RedisMode

  function ModeOf(b: Backend): Mode {
    match b
    case Custom(_, _) => CustomMode
    case IronMq => IronMqMode
    case Sqs => SqsMode
    case Orm => OrmMode
    case Mongo => MongoMode
    case PubSub => PubSubMode
    case Redis => RedisMode
  }

  /** Position of a mode in the chain; lower is tried first. */
  function Rank(m: Mode): nat {
    match m
    case CustomMode => 0
    case IronMqMode => 1
    case SqsMode => 2
    case OrmMode => 3
    case MongoMode => 4
    case PubSubMode => 5
    case RedisMode => 6
  }

  /** The condition under which a branch of the chain is taken; SQS needs a dict, even an empty one. */
  predicate Requested(conf: Config, m: Mode) {
    match m
    case CustomMode => Truthy(conf.brokerClass)
    case IronMqMode => Truthy(conf.ironMq)
    case SqsMode => conf.sqs.Table?
    case OrmMode => Truthy(conf.orm)
    case MongoMode => Truthy(conf.mongo)
    case PubSubMode => Truthy(conf.pubSub)
    case RedisMode => true
  }

  /** Why a custom class path cannot be split into module and attribute. */
  datatype FactoryError =
    | ClassPathNotText     // `rsplit` on a value that is not a string
    | ClassPathWithoutDot  // `rsplit(".", 1)` yields one part, which cannot unpack into two

  /** The backend chosen and the queue name it is constructed with. */
  datatype Selection = Selection(backend: Backend, listKey: string)

  /** Position of the last `.` in `s`, if any. */
  function LastDot(s: string): (r: Option<nat>)
    ensures r.Some? ==> r.value < |s| && s[r.value] == '.' && forall j :: r.value < j < |s| ==> s[j] != '.'
    ensures r.None? ==> forall j :: 0 <= j < |s| ==> s[j] != '.'
  {
    if |s| == 0 then None
    else if s[|s| - 1] == '.' then Some(|s| - 1)
    else LastDot(s[..|s| - 1])
  }

  /** `path.rsplit(".", 1)` unpacked into two names, or `None` when there is no dot. */
  function RSplitDot(path: string): (r: Option<(string, string)>)
    ensures r.None? <==> '.' !in path
    ensures r.Some? ==> r.value.0 + "." + r.value.1 == path && '.' !in r.value.1
  {
    match LastDot(path)
    case None => None
    case Some(p) =>
      var moduleName, attr := path[..p], path[p + 1..];
      assert moduleName + "." + attr == path;
      assert forall j :: 0 <= j < |attr| ==> attr[j] == path[p + 1 + j];
      Some((moduleName, attr))
  }

  /**
   * `get_broker(list_key)`: defaults the queue name, then walks the chain
   * custom, IronMQ, SQS, ORM, Mongo, Pub/Sub and falls back to Redis.
   */
  function GetBroker(listKey: Option<string>, conf: Config): (r: Result<Selection, FactoryError>)
    ensures r.Success? ==>
      && r.value.listKey == QueueName(listKey, conf.clusterName)
      && Requested(conf, ModeOf(r.value.backend))
      && forall m :: Rank(m) < Rank(ModeOf(r.value.backend)) ==> !Requested(conf, m)
    ensures r.Failure? <==>
      Truthy(conf.brokerClass) && (!conf.brokerClass.Text? || '.' !in conf.brokerClass.text)
    ensures r.Failure? ==> (r.error == ClassPathNotText <==> !conf.brokerClass.Text?)
    ensures r.Success? && r.value.backend.Custom? ==>
      && r.value.backend.moduleName + "." + r.value.backend.className == conf.brokerClass.text
      && '.' !in r.value.backend.className
  {
    var name := QueueName(listKey, conf.clusterName);
    if Truthy(conf.brokerClass) then
      match conf.brokerClass
      case Text(path) =>
        (match RSplitDot(path)
         case None => Failure(ClassPathWithoutDot)
         case Some(parts) => Success(Selection(Custom(parts.0, parts.1), name)))
      case _ => Failure(ClassPathNotText)
    else if Truthy(conf.ironMq) then Success(Selection(IronMq, name))
    else if conf.sqs.Table? then Success(Selection(Sqs, name))
    else if Truthy(conf.orm) then Success(Selection(Orm, name))
    else if Truthy(conf.mongo) then Success(Selection(Mongo, name))
    else if Truthy(conf.pubSub) then Success(Selection(PubSub, name))
    else Success(Selection(Redis, name))
  }

  /** With nothing configured, every queue gets the Redis backend under its own (defaulted) name. */
  lemma PlainSelectsRedis(listKey: Option<string>, clusterName: string)
    ensures GetBroker(listKey, Plain(clusterName)) == Success(Selection(Redis, QueueName(listKey, clusterName)))
  {
  }

  /** Any requested mode outranks every later one: the selection is never below a requested mode. */
  lemma EarlierRequestWins(listKey: Option<string>, conf: Config, m: Mode)
    requires Requested(conf, m)
    requires GetBroker(listKey, conf).Success?
    ensures Rank(ModeOf(GetBroker(listKey, conf).value.backend)) <= Rank(m)
  {
  }

  /** `type(Conf.SQS) == dict` holds of an empty dict, so it selects SQS though it is falsy. */
  lemma EmptySqsDictSelectsSqs(clusterName: string)
    ensures var conf := Plain(clusterName).(sqs := Table(map[]));
            !Truthy(conf.sqs) && GetBroker(None, conf) == Success(Selection(Sqs, clusterName))
  {
  }
}
