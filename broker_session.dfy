/** The broker session (librdkafka and the cluster behind it) as seen by the
    administrative calls: the objects they hand to it, the requests they
    submit, the events they get back, and a script of its answers. The
    session itself is not modelled; each call receives, as a `Responses`
    value, what every foreign call it makes is going to answer. */
module BrokerSession {
  import opened KafkaTypes

  /** One topic-level configuration entry; the value is the number that
      `std::to_string` renders. */
  datatype ConfigEntry = ConfigEntry(name: string, value: nat)

  /** A `rd_kafka_NewTopic_t`: name, partition count, replication factor
      (as the C `int` librdkafka receives) and the config entries set so far. */
  datatype NewTopic = NewTopic(
    name: string,
    numPartitions: int,
    replicationFactor: int,
    config: seq<ConfigEntry>)

  datatype AdminOp = CreateTopicsOp | DeleteTopicsOp

  /** What `rd_kafka_event_CreateTopics_result` / `..._DeleteTopics_result`
      recognise an event as. */
  datatype EventKind = CreateTopicsResult | DeleteTopicsResult | OtherEvent

  /** A polled event: its kind and, for a result event, the error code of
      each per-topic result in result order. */
  datatype Event = Event(kind: EventKind, topicErrors: seq<int>)

  datatype Request =
    | CreateTopicsRequest(newTopics: seq<NewTopic>)
    | DeleteTopicsRequest(topics: seq<string>)

  /** The interactions with the session that an administrative call makes
      once its set-up has succeeded. */
  datatype Call =
    | Submit(request: Request, operationTimeoutMs: int)  // rd_kafka_CreateTopics / rd_kafka_DeleteTopics
    | Poll(timeoutMs: int)                              // rd_kafka_queue_poll
    | ReadResult(index: nat)                            // rd_kafka_topic_result_error
    | FetchMetadata(allTopics: bool, timeoutMs: int)    // rd_kafka_metadata

  /** The handles a call acquires. The configuration object passes to the
      client when rd_kafka_new succeeds and is destroyed with it. */
  datatype Handle =
    | ConfH | ClientH | QueueH | TopicArrayH | TopicObjectH(index: nat)
    | OptionsH | EventH | MetadataH

  /** What the session answers, foreign call by foreign call.
      `refusedTopicObjects` holds the indices at which creating a topic
      object fails; `refusedConfigs` numbers the set_config calls in the
      order they are made (three per topic). `reply` is what the single
      poll returns (None when it times out); `metadata` is the topic list
      of a metadata snapshot, or None when the request fails. */
  datatype Responses = Responses(
    acceptsBootstrap: bool,
    createsClient: bool,
    refusedTopicObjects: set<nat>,
    createsOptions: bool,
    acceptsTimeout: bool,
    refusedConfigs: set<nat>,
    reply: Option<Event>,
    metadata: Option<seq<string>>)

  /** The result kind that answers an operation. */
  function ResultKind(op: AdminOp): (k: EventKind)
    ensures k != OtherEvent
    ensures op == CreateTopicsOp <==> k == CreateTopicsResult
  {
    match op
    case CreateTopicsOp => CreateTopicsResult
    case DeleteTopicsOp => DeleteTopicsResult
  }

  /** The calls reading per-topic results 0 .. n-1, in order. */
  function Reads(n: nat): (calls: seq<Call>)
    ensures |calls| == n
    ensures forall i :: 0 <= i < n ==> calls[i] == ReadResult(i)
  {
    seq(n, (i: nat) => ReadResult(i))
  }

  /** The topic-object handles 0 .. n-1, in order. */
  function TopicObjects(n: nat): (hs: seq<Handle>)
    ensures |hs| == n
    ensures forall i :: 0 <= i < n ==> hs[i] == TopicObjectH(i)
  {
    seq(n, (i: nat) => TopicObjectH(i))
  }

  /** The least member of `s` below `n`, if any: the first of n numbered
      foreign calls that the session refuses. */
  function FirstIn(s: set<nat>, n: nat): (r: Option<nat>)
    ensures r.None? <==> forall j :: 0 <= j < n ==> j !in s
    ensures r.Some? ==> r.value < n && r.value in s && forall j :: 0 <= j < r.value ==> j !in s
  {
    if n == 0 then None
    else match FirstIn(s, n - 1)
      case Some(k) => Some(k)
      case None => if n - 1 in s then Some(n - 1) else None
  }
}
