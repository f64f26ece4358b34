/** Building the request objects of createTopics and deleteTopics
    (create_topic.cpp lines 46-55, 72-91 and 180-189): one topic object
    per name in an array, and for creation the three config entries set on
    each object. */
module TopicRequests {
  import opened KafkaTypes
  import opened BrokerSession

  const RetentionMs: string := "retention.ms"
  const MaxMessageBytes: string := "max.message.bytes"
  const MinInsyncReplicas: string := "min.insync.replicas"

  /** The config keys in the order each topic gets them. */
  const ConfigKeys: seq<string> := [RetentionMs, MaxMessageBytes, MinInsyncReplicas]

  /** The config entries every new topic gets, in the order they are set. */
  function TopicConfig(conf: TopicConf): (entries: seq<ConfigEntry>)
    ensures |entries| == |ConfigKeys| == 3
    ensures forall k :: 0 <= k < 3 ==> entries[k].name == ConfigKeys[k]
    ensures entries[0].value == conf.maxRetentionMs as nat
    ensures entries[1].value == conf.maxMessageBytes as nat
    ensures entries[2].value == conf.minIsr as nat
  {
    [ ConfigEntry(RetentionMs, conf.maxRetentionMs as nat),
      ConfigEntry(MaxMessageBytes, conf.maxMessageBytes as nat),
      ConfigEntry(MinInsyncReplicas, conf.minIsr as nat) ]
  }

  /** What rd_kafka_NewTopic_new makes of a name: no config yet. */
  function BareTopic(name: string, conf: TopicConf): NewTopic
  {
    NewTopic(name, AsCInt(conf.partitionCount), AsCInt(conf.replicationFactor), [])
  }

  /** A new topic once its three config entries are set. */
  function ConfiguredTopic(name: string, conf: TopicConf): NewTopic
  {
    BareTopic(name, conf).(config := TopicConfig(conf))
  }

  /** The topics of a complete create request, one per name, in order. */
  function NewTopics(names: seq<string>, conf: TopicConf): (ts: seq<NewTopic>)
    ensures |ts| == |names|
    ensures forall i :: 0 <= i < |names| ==> ts[i] == ConfiguredTopic(names[i], conf)
  {
    seq(|names|, i requires 0 <= i < |names| => ConfiguredTopic(names[i], conf))
  }

  /** The array of new-topic objects (lines 46-55): filled in name order;
      the first object the session refuses to create stops the loop. */
  method BuildTopicObjects(names: seq<string>, conf: TopicConf, refused: set<nat>)
    returns (topics: array<NewTopic>, refusedAt: Option<nat>)
    ensures fresh(topics) && topics.Length == |names|
    ensures refusedAt == FirstIn(refused, |names|)
    ensures refusedAt.None? ==> forall j :: 0 <= j < |names| ==> topics[j] == BareTopic(names[j], conf)
  {
    topics := new NewTopic[|names|];
    var i := 0;
    while i < |names|
      invariant 0 <= i <= |names|
      invariant forall j :: 0 <= j < i ==> j !in refused
      invariant forall j :: 0 <= j < i ==> topics[j] == BareTopic(names[j], conf)
    {
      if i in refused {
        refusedAt := Some(i);
        return;
      }
      topics[i] := BareTopic(names[i], conf);
      i := i + 1;
    }
    refusedAt := None;
  }

  /** The array of delete-topic objects (lines 180-189), built the same way. */
  method BuildDeleteObjects(names: seq<string>, refused: set<nat>)
    returns (topics: array<string>, refusedAt: Option<nat>)
    ensures fresh(topics) && topics.Length == |names|
    ensures refusedAt == FirstIn(refused, |names|)
    ensures refusedAt.None? ==> topics[..] == names
  {
    topics := new string[|names|];
    var i := 0;
    while i < |names|
      invariant 0 <= i <= |names|
      invariant forall j :: 0 <= j < i ==> j !in refused
      invariant topics[..i] == names[..i]
    {
      if i in refused {
        refusedAt := Some(i);
        return;
      }
      topics[i] := names[i];
      i := i + 1;
    }
    refusedAt := None;
  }

  /** One rd_kafka_NewTopic_set_config call, numbered `call` in call order:
      it appends `entry` to topic `i` unless the session refuses it. */
  method SetConfig(topics: array<NewTopic>, i: nat, entry: ConfigEntry, call: nat, refused: set<nat>)
    returns (ok: bool)
    requires i < topics.Length
    modifies topics
    ensures ok <==> call !in refused
    ensures topics[..] == old(topics[..])[i := if ok then old(topics[i]).(config := old(topics[i]).config + [entry]) else old(topics[i])]
  {
    ok := call !in refused;
    if ok {
      topics[i] := topics[i].(config := topics[i].config + [entry]);
    }
  }

  /** The config loop (lines 72-91): for each topic in turn, retention.ms,
      max.message.bytes and min.insync.replicas; the first refused call
      stops everything. Call number 3 * i + k sets entry k of topic i. */
  method ApplyTopicConfig(topics: array<NewTopic>, conf: TopicConf, refused: set<nat>)
    returns (refusedAt: Option<nat>)
    modifies topics
    ensures refusedAt == FirstIn(refused, 3 * topics.Length)
    ensures refusedAt.None? ==>
      forall j :: 0 <= j < topics.Length ==>
        topics[j] == old(topics[j]).(config := old(topics[j]).config + TopicConfig(conf))
  {
    var entries := TopicConfig(conf);
    var i := 0;
    while i < topics.Length
      invariant 0 <= i <= topics.Length
      invariant forall c :: 0 <= c < 3 * i ==> c !in refused
      invariant forall j :: 0 <= j < i ==> topics[j] == old(topics[j]).(config := old(topics[j]).config + entries)
      invariant forall j :: i <= j < topics.Length ==> topics[j] == old(topics[j])
    {
      ghost var before := topics[i];
      var ok := SetConfig(topics, i, entries[0], 3 * i, refused);
      if !ok {
        refusedAt := Some(3 * i);
        return;
      }
      ok := SetConfig(topics, i, entries[1], 3 * i + 1, refused);
      if !ok {
        refusedAt := Some(3 * i + 1);
        return;
      }
      ok := SetConfig(topics, i, entries[2], 3 * i + 2, refused);
      if !ok {
        refusedAt := Some(3 * i + 2);
        return;
      }
      assert [entries[0]] + [entries[1]] + [entries[2]] == entries;
      assert topics[i] == before.(config := before.config + entries);
      i := i + 1;
    }
    refusedAt := None;
  }
}
