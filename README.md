# Kafka topic administration: a Dafny model

This project models the administrative topic-lifecycle code of the Kafka C++
client examples: `createTopics`, `deleteTopics` and `GetTopicList` in
`kafka_cpp_client/5_create_topic/create_topic.cpp`, with their result checks
and their `cleanup` lambdas.

Each call configures a producer client for `localhost:9092`. `createTopics` and
`deleteTopics` then build one topic object per name in a heap array. For
creation, each object also gets three config entries. The calls submit
everything as one CreateTopics or DeleteTopics request, poll the result queue
once, and validate the reply. The validation checks the event kind, then the
result count, then scans the per-topic error codes and stops at the first one
it rejects. Deletion accepts "unknown topic or partition". `GetTopicList`
fetches a metadata snapshot and appends its topic names to the caller's
vector. All three release their handles only on the success path.

The broker session (librdkafka and the cluster behind it) is not modelled. Each
call receives a `Responses` value that scripts what every foreign call answers:
- whether the bootstrap setting is accepted;
- whether the client and admin options are created;
- which topic objects and which `set_config` calls are refused;
- what the poll returns;
- what the metadata request returns.

Each method returns its outcome and the trace of calls it makes on the session:
the submission, the poll, each per-topic result read, and the metadata fetch.
Ghost out-parameters record the handles the method acquires and releases.

Modules:
- `KafkaTypes` (kafka_types.dfy): integer widths, `Result`/`Option`, `TopicConf`, the error variants, the `uint32` to C `int` conversion.
- `BrokerSession` (broker_session.dfy): topic objects, requests, events, calls, handles and the scripted responses.
- `TopicRequests` (topic_requests.dfy): filling the topic-object arrays and the config loop.
- `ResultChecks` (result_checks.dfy): validation of the polled event.
- `TopicAdmin` (topic_admin.dfy): the three operations and the specification functions they are proved against.
- `AdminProperties` (admin_properties.dfy): the properties of those specification functions.

Notes on the code:
- Each `throw` runs before `cleanup()`, so a failing call releases nothing. In the model, `released` is empty on failure. Once `rd_kafka_new` has succeeded, the client and its queue are among the handles a failure leaves acquired.
- Per-topic results are positional (result `i` answers request topic `i`). They are not a mapping from topic name to outcome.
- Partition count, replication factor and timeouts are `uint32_t` values passed to librdkafka's `int` parameters. `AsCInt` makes the reinterpretation explicit: a value of 2^31 or more arrives negative.

## Model

| member | source | states |
|---|---|---|
| KafkaTypes.AsCInt | kafka_cpp_client/5_create_topic/create_topic.cpp:50 | the `int` librdkafka receives for a `uint32_t` argument is in the 32-bit signed range, congruent to it modulo 2^32, and equal to it exactly when non-negative |
| BrokerSession.FirstIn | kafka_cpp_client/5_create_topic/create_topic.cpp:48-55 | the step at which a loop of numbered foreign calls stops is the least refused call number below n, and there is none exactly when no call below n is refused |
| TopicRequests.BuildTopicObjects | kafka_cpp_client/5_create_topic/create_topic.cpp:46-55 | allocates one slot per name; stops at the first refused index; otherwise slot i holds the topic for name i with the partition count and replication factor and no config |
| TopicRequests.BuildDeleteObjects | kafka_cpp_client/5_create_topic/create_topic.cpp:180-189 | allocates one slot per name; stops at the first refused index; otherwise the array holds the names in input order |
| TopicRequests.SetConfig | kafka_cpp_client/5_create_topic/create_topic.cpp:74-78 | one set_config call succeeds exactly when not refused; on success it appends the entry to topic i, and otherwise changes nothing |
| TopicRequests.ApplyTopicConfig | kafka_cpp_client/5_create_topic/create_topic.cpp:72-91 | reports the first refused set_config call, counting three per topic; if none is refused, each topic's config gains retention.ms, max.message.bytes and min.insync.replicas, in that order, and nothing else changes |
| ResultChecks.Accepts | kafka_cpp_client/5_create_topic/create_topic.cpp:117-123 | a zero code is always accepted; creation accepts exactly zero; deletion accepts exactly zero and "unknown topic or partition" (line 233) |
| ResultChecks.FirstFailure | kafka_cpp_client/5_create_topic/create_topic.cpp:117-123 | the lowest index whose code the operation rejects, with every earlier code accepted; None exactly when every code is accepted |
| ResultChecks.Verdict | kafka_cpp_client/5_create_topic/create_topic.cpp:99-123 | success exactly when the event is the matching result, the count equals the request count and every code is accepted; WrongEvent exactly when there is no event or it has the wrong kind |
| ResultChecks.CheckReply | kafka_cpp_client/5_create_topic/create_topic.cpp:99-123 | the loop computes Verdict; a count mismatch reports both counts and reads no result; a topic error is at the lowest rejected index, carries its code, and only results 0..i were read |
| TopicAdmin.SetupError | kafka_cpp_client/5_create_topic/create_topic.cpp:27-91 | the first set-up step the session refuses, in source order (bootstrap, client, topic objects, options, timeout, config): each error implies every earlier step was accepted, and the options and timeout errors are characterised exactly; bootstrap and client refusals are recognised exactly; a topic-object failure names the least refused index below n; a config failure only happens for creation and names a topic below n and one of the three keys; set-up never reports a reply-shaped error |
| TopicAdmin.Outcome | kafka_cpp_client/5_create_topic/create_topic.cpp:17-123 | a call succeeds exactly when set-up succeeds and the verdict on the reply is success; a WrongEvent, CountMismatch or TopicError arises exactly when set-up succeeded and the verdict failed |
| TopicAdmin.AcquireOrder | kafka_cpp_client/5_create_topic/create_topic.cpp:23-97 | a successful call acquires n + 6 handles, the configuration first and the polled event last; ReleasesEachAcquiredOnce relates them to the cleanup order |
| TopicAdmin.Exchange | kafka_cpp_client/5_create_topic/create_topic.cpp:94-123 | after set-up, one submission of the request and one poll with the caller's timeout, then the reads the validation makes; the result is the verdict on the polled event |
| TopicAdmin.SetUpCreate | kafka_cpp_client/5_create_topic/create_topic.cpp:19-91 | returns exactly SetupError for creation; on success the request is the fully configured topic list and the handles are those of AcquireOrder minus the event; the client and queue are held after any failure past `rd_kafka_new` |
| TopicAdmin.ConfigureTopics | kafka_cpp_client/5_create_topic/create_topic.cpp:72-91 | on the bare topic objects, the config loop fails at the first refused call, and otherwise leaves exactly the create request in the array |
| TopicAdmin.CreateTopics | kafka_cpp_client/5_create_topic/create_topic.cpp:17-149 | the outcome is the first refused set-up step, else the verdict on the reply; the trace is one submission of the full create request, one poll with the same timeout, then the reads; on success every handle is released in cleanup order; on failure nothing is released, and on a failure after `rd_kafka_new` succeeds the client and queue stay acquired |
| TopicAdmin.SetUpDelete | kafka_cpp_client/5_create_topic/create_topic.cpp:153-203 | returns exactly SetupError for deletion; on success the request is the names in order and the handles are those of AcquireOrder minus the event |
| TopicAdmin.DeleteTopics | kafka_cpp_client/5_create_topic/create_topic.cpp:151-263 | the same as CreateTopics for a delete request of the names, without the config step, with "unknown topic or partition" accepted |
| TopicAdmin.Cleanup | kafka_cpp_client/5_create_topic/create_topic.cpp:125-148 | on the success path the release order is event, options, topic objects 0..n-1, array, queue, client |
| TopicAdmin.GetTopicList | kafka_cpp_client/5_create_topic/create_topic.cpp:265-307 | fails at the bootstrap, client or metadata step, leaving the list unchanged and releasing nothing; otherwise appends the snapshot's names in order after the existing entries and releases the metadata, then the client |
| TopicAdmin.TopicNameList.EmplaceBack | kafka_cpp_client/5_create_topic/create_topic.cpp:298 | appends one name at the end of the vector |
| AdminProperties.CreateRequestMirrorsNames | kafka_cpp_client/5_create_topic/create_topic.cpp:48-91 | the create request has one topic per name, in name order, each with the configured partition count and replication factor and exactly the three config entries in their fixed order |
| AdminProperties.SetupSucceedsIffEveryStepAccepted | kafka_cpp_client/5_create_topic/create_topic.cpp:27-91 | set-up succeeds exactly when the bootstrap server, the client, every topic object, the admin options, the timeout and, for creation, every one of the 3n config calls are accepted |
| AdminProperties.OneSubmissionOnePoll | kafka_cpp_client/5_create_topic/create_topic.cpp:94-97 | once set-up succeeds there is exactly one submission with the caller's timeout and exactly one poll with the same timeout, and every later call is a result read; nothing is submitted otherwise |
| AdminProperties.WrongEventFailsBeforeInspection | kafka_cpp_client/5_create_topic/create_topic.cpp:100-104 | a missing or mismatched event fails with WrongEvent and no per-topic result is read |
| AdminProperties.PartialResultsRejected | kafka_cpp_client/5_create_topic/create_topic.cpp:110-114 | a result count different from the request count fails with CountMismatch(expected, got) and no result is read |
| AdminProperties.CreateSucceedsIffAllTopicsOk | kafka_cpp_client/5_create_topic/create_topic.cpp:117-123 | createTopics succeeds exactly when set-up succeeds and the reply is a create result with one entry per topic, all error-free |
| AdminProperties.CreateFailsAtFirstError | kafka_cpp_client/5_create_topic/create_topic.cpp:117-123 | createTopics fails with TopicError(i, c) exactly when i is the lowest erroring index of a well-formed reply and c its code; exactly results 0..i are read |
| AdminProperties.LaterResultsIgnored | kafka_cpp_client/5_create_topic/create_topic.cpp:117-123 | after a topic error at i, replacing the results after i changes nothing |
| AdminProperties.DeleteIsIdempotent | kafka_cpp_client/5_create_topic/create_topic.cpp:229-237 | a delete reply whose codes are all either no error or "unknown topic or partition" succeeds |
| AdminProperties.DeleteFailsAtFirstOtherError | kafka_cpp_client/5_create_topic/create_topic.cpp:229-237 | any other non-zero code fails deleteTopics at the lowest such index |
| AdminProperties.DeleteAcceptsWhatCreateAccepts | kafka_cpp_client/5_create_topic/create_topic.cpp:233 | every result set createTopics accepts, deleteTopics accepts too |
| AdminProperties.ConfigFailureIsFirstRefused | kafka_cpp_client/5_create_topic/create_topic.cpp:72-91 | a config failure names a topic below n and the key of the first refused set_config call, and every earlier set_config call was accepted |
| AdminProperties.ReleasesEachAcquiredOnce | kafka_cpp_client/5_create_topic/create_topic.cpp:125-145 | on success the released handles are exactly the acquired ones except the configuration, which the client owns; no handle is acquired twice |
| AdminProperties.DeleteOfMissingTopicSucceeds | kafka_cpp_client/5_create_topic/create_topic.cpp:231-236 | deleting ["t1"] when the broker answers "unknown topic or partition" succeeds |
| AdminProperties.ShortResultSetIsFatal | kafka_cpp_client/5_create_topic/create_topic.cpp:111-114 | creating two topics with a one-entry result set is CountMismatch(2, 1), not a partial success |

## Left out

- The librdkafka calls and the network behind them. Their answers are inputs (`Responses`), not behaviour. This includes what makes librdkafka refuse a topic, a config entry or a timeout.
- `rd_kafka_queue_new` is not checked by the code. The model treats it as always succeeding.
- Real timeout and wall-clock behaviour of the poll. A poll that returns no event is `reply == None` and fails as WrongEvent.
- Error-message text and `std::to_string` rendering. Config values are kept as numbers. The `errstr` thrown after a refused `set_config` is never filled, and the model does not capture that.
- `malloc` failure, which the code does not check.
- `main`, a fixed demo sequence that prints to stdout.
- Release on error paths. The code releases nothing when it throws, and the model states exactly that.
- Topic objects are held as values in the array. The librdkafka objects they stand for are not modelled.
- The trace records the submission, the poll, result reads and the metadata fetch. Set-up calls show up only through the outcome and the acquired handles.
- Names are passed to librdkafka as C strings (`c_str()`, lines 50 and 184). A name with an embedded NUL character reaches the broker cut short at that character; the model carries the whole string.
- The loop counters are `int` compared with `size_t`. This would overflow past 2^31 topics, and the model does not capture it.
- Rebalancing, end-of-partition tracking, batch accumulation and the consumption loop are not part of this model.
