/** Basic types shared by the topic-administration model: the C integer
    widths the client passes around, failure-compatible wrappers, the
    topic settings record and the ways an administrative call can fail. */
module KafkaTypes {

  /** `uint32_t` and `uint64_t`. */
  newtype uint32 = x: int | 0 <= x < 0x1_0000_0000
  newtype uint64 = x: int | 0 <= x < 0x1_0000_0000_0000_0000

  /** The value a C `int` parameter receives when a `uint32_t` argument is
      passed to it: the same 32 bits read as two's complement. librdkafka
      takes partition counts, replication factors and timeouts as `int`, so
      a value of 2^31 or more arrives negative (and -1 means "broker
      default" or "wait forever" to librdkafka). */
  function AsCInt(x: uint32): (r: int)
    ensures -0x8000_0000 <= r < 0x8000_0000
    ensures (x as int - r) % 0x1_0000_0000 == 0
    ensures r >= 0 <==> r == x as int
  {
    if x < 0x8000_0000 then x as int else x as int - 0x1_0000_0000
  }

  /** The inverse of AsCInt: reading a C `int` back as `uint32_t`. */
  function AsUInt32(r: int): (x: uint32)
    requires -0x8000_0000 <= r < 0x8000_0000
    ensures AsCInt(x) == r
  {
    if r >= 0 then r as uint32 else (r + 0x1_0000_0000) as uint32
  }

  datatype Option<+T> = None | Some(value: T)

  datatype Unit = Unit

  datatype Result<+T, +E> = Success(value: T) | Failure(error: E)

  /** The per-topic settings applied by topic creation. */
  datatype TopicConf = TopicConf(
    partitionCount: uint32,
    replicationFactor: uint32,
    minIsr: uint32,
    maxMessageBytes: uint64,
    maxRetentionMs: uint64)

  /** RD_KAFKA_RESP_ERR_NO_ERROR. */
  const NoError: int := 0

  /** RD_KAFKA_RESP_ERR_UNKNOWN_TOPIC_OR_PART. */
  const UnknownTopicOrPart: int := 3

  /** Every `throw` of the three operations, one constructor each. */
  datatype Err =
    | BootstrapRejected                        // rd_kafka_conf_set refused bootstrap.servers
    | ClientFailed                             // rd_kafka_new returned NULL
    | TopicObjectFailed(index: nat)            // rd_kafka_NewTopic_new / DeleteTopic_new returned NULL
    | AdminOptionsFailed                       // rd_kafka_AdminOptions_new returned NULL
    | TimeoutRejected                          // the operation timeout was refused
    | TopicConfigFailed(topic: nat, key: string) // rd_kafka_NewTopic_set_config refused an entry
    | WrongEvent                               // the polled event is not the expected result
    | CountMismatch(expected: nat, got: nat)   // result count differs from request count
    | TopicError(index: nat, code: int)        // a per-topic result carries an error
    | MetadataFailed                           // rd_kafka_metadata returned an error
}
