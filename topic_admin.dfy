/** The three administrative calls of create_topic.cpp: createTopics,
    deleteTopics and GetTopicList. Each configures a client for the
    bootstrap server, runs its request against the broker session and, on
    success only, releases every handle it acquired. A failing step throws
    before the release code runs, so on failure nothing is released. */
module TopicAdmin {
  import opened KafkaTypes
  import opened BrokerSession
  import opened ResultChecks
  import opened TopicRequests

  /** The first set-up step of createTopics (op == CreateTopicsOp) or
      deleteTopics that the session refuses, in the order the client takes
      them: bootstrap server, client, topic objects, admin options,
      operation timeout and, for creation only, the config entries. */
  function SetupError(op: AdminOp, n: nat, b: Responses): (e: Option<Err>)
    ensures e == Some(BootstrapRejected) <==> !b.acceptsBootstrap
    ensures e == Some(ClientFailed) <==> b.acceptsBootstrap && !b.createsClient
    ensures e.Some? && e.value.TopicObjectFailed? ==>
      e.value.index < n && e.value.index in b.refusedTopicObjects
    ensures e.Some? && e.value.TopicConfigFailed? ==>
      op == CreateTopicsOp && e.value.topic < n && e.value.key in ConfigKeys
    ensures e.Some? && e.value.TopicObjectFailed? ==>
      b.acceptsBootstrap && b.createsClient && forall j :: 0 <= j < e.value.index ==> j !in b.refusedTopicObjects
    ensures e == Some(AdminOptionsFailed) <==>
      b.acceptsBootstrap && b.createsClient && (forall j :: 0 <= j < n ==> j !in b.refusedTopicObjects) && !b.createsOptions
    ensures e == Some(TimeoutRejected) <==>
      b.acceptsBootstrap && b.createsClient && (forall j :: 0 <= j < n ==> j !in b.refusedTopicObjects)
      && b.createsOptions && !b.acceptsTimeout
    ensures e.Some? && e.value.TopicConfigFailed? ==>
      b.acceptsBootstrap && b.createsClient && b.createsOptions && b.acceptsTimeout
      && forall j :: 0 <= j < n ==> j !in b.refusedTopicObjects
    ensures e.Some? ==> !e.value.WrongEvent? && !e.value.CountMismatch? && !e.value.TopicError? && !e.value.MetadataFailed?
  {
    if !b.acceptsBootstrap then Some(BootstrapRejected)
    else if !b.createsClient then Some(ClientFailed)
    else if FirstIn(b.refusedTopicObjects, n).Some? then
      Some(TopicObjectFailed(FirstIn(b.refusedTopicObjects, n).value))
    else if !b.createsOptions then Some(AdminOptionsFailed)
    else if !b.acceptsTimeout then Some(TimeoutRejected)
    else if op == CreateTopicsOp && FirstIn(b.refusedConfigs, 3 * n).Some? then
      var c := FirstIn(b.refusedConfigs, 3 * n).value;
      Some(TopicConfigFailed(c / 3, ConfigKeys[c % 3]))
    else None
  }

  /** The outcome of the call for n topics. */
  function Outcome(op: AdminOp, n: nat, b: Responses): (r: Result<Unit, Err>)
    ensures r.Success? <==> SetupError(op, n, b).None? && Verdict(op, n, b.reply).Success?
    ensures r.Failure? && (r.error.WrongEvent? || r.error.CountMismatch? || r.error.TopicError?) <==>
      SetupError(op, n, b).None? && Verdict(op, n, b.reply).Failure?
    ensures !(r.Failure? && r.error.MetadataFailed?)
  {
    match SetupError(op, n, b)
    case Some(e) => Failure(e)
    case None => Verdict(op, n, b.reply)
  }

  /** The calls made on the session for a request `req` of n topics once
      set-up has succeeded: the submission, a poll with the same timeout,
      then the result reads. */
  function Trace(op: AdminOp, req: Request, n: nat, timeoutMs: uint32, b: Responses): seq<Call>
  {
    if SetupError(op, n, b).Some? then []
    else
      [Submit(req, AsCInt(timeoutMs)), Poll(AsCInt(timeoutMs))] + Reads(Examined(op, n, b.reply))
  }

  /** Handles a successful createTopics/deleteTopics acquires, in order. */
  function AcquireOrder(n: nat): (hs: seq<Handle>)
    ensures |hs| == n + 6
    ensures hs[0] == ConfH && hs[|hs| - 1] == EventH
  {
    [ConfH, ClientH, QueueH, TopicArrayH] + TopicObjects(n) + [OptionsH, EventH]
  }

  /** The order of the cleanup lambda (lines 125-145 and 239-259): event,
      options, each topic object, the array, the queue, then the client
      (which also frees the configuration it took over). */
  function ReleaseOrder(n: nat): seq<Handle>
  {
    [EventH, OptionsH] + TopicObjects(n) + [TopicArrayH, QueueH, ClientH]
  }

  /** The exchange with the broker once set-up has succeeded (lines 94-123
      and 205-237): submit the request, poll the queue once with the same
      timeout, then validate the reply. */
  method Exchange(op: AdminOp, req: Request, n: nat, timeoutMs: uint32, b: Responses)
    returns (r: Result<Unit, Err>, calls: seq<Call>)
    ensures r == Verdict(op, n, b.reply)
    ensures calls == [Submit(req, AsCInt(timeoutMs)), Poll(AsCInt(timeoutMs))] + Reads(Examined(op, n, b.reply))
  {
    calls := [Submit(req, AsCInt(timeoutMs)), Poll(AsCInt(timeoutMs))];
    var readCalls;
    r, readCalls := CheckReply(op, n, b.reply);
    calls := calls + readCalls;
  }

  /** The set-up of createTopics (lines 19-91): configure the client for
      the bootstrap server, create it and its queue, build one topic object
      per name, create the admin options, set the operation timeout, then
      set the three config entries on every topic. The first refused step
      stops it; `request` is the finished topic array on success. */
  method SetUpCreate(names: seq<string>, conf: TopicConf, b: Responses)
    returns (e: Option<Err>, request: seq<NewTopic>, ghost acquired: seq<Handle>)
    ensures e == SetupError(CreateTopicsOp, |names|, b)
    ensures e.None? ==> request == NewTopics(names, conf) && acquired + [EventH] == AcquireOrder(|names|)
    ensures |acquired| > 0 && acquired[0] == ConfH
    ensures e !in {Some(BootstrapRejected), Some(ClientFailed)} ==> ClientH in acquired && QueueH in acquired
  {
    request, acquired := [], [ConfH];
    if !b.acceptsBootstrap {
      return Some(BootstrapRejected), request, acquired;
    }
    if !b.createsClient {
      return Some(ClientFailed), request, acquired;
    }
    acquired := acquired + [ClientH, QueueH, TopicArrayH];
    var topics, refusedAt := BuildTopicObjects(names, conf, b.refusedTopicObjects);
    if refusedAt.Some? {
      acquired := acquired + TopicObjects(refusedAt.value);
      return Some(TopicObjectFailed(refusedAt.value)), request, acquired;
    }
    acquired := acquired + TopicObjects(|names|);
    if !b.createsOptions {
      return Some(AdminOptionsFailed), request, acquired;
    }
    acquired := acquired + [OptionsH];
    if !b.acceptsTimeout {
      return Some(TimeoutRejected), request, acquired;
    }
    var configRefused := ConfigureTopics(topics, names, conf, b.refusedConfigs);
    if configRefused.Some? {
      var c := configRefused.value;
      return Some(TopicConfigFailed(c / 3, ConfigKeys[c % 3])), request, acquired;
    }
    e, request := None, topics[..];
  }

  /** The config step of createTopics (lines 72-91) on the freshly built
      topic objects: on success the array holds the finished request. */
  method ConfigureTopics(topics: array<NewTopic>, names: seq<string>, conf: TopicConf, refused: set<nat>)
    returns (refusedAt: Option<nat>)
    requires topics.Length == |names|
    requires forall j :: 0 <= j < |names| ==> topics[j] == BareTopic(names[j], conf)
    modifies topics
    ensures refusedAt == FirstIn(refused, 3 * |names|)
    ensures refusedAt.None? ==> topics[..] == NewTopics(names, conf)
  {
    ghost var bare := topics[..];
    refusedAt := ApplyTopicConfig(topics, conf, refused);
    if refusedAt.Some? {
      return;
    }
    forall j | 0 <= j < |names|
      ensures topics[j] == ConfiguredTopic(names[j], conf)
    {
      assert bare[j] == BareTopic(names[j], conf);
      assert [] + TopicConfig(conf) == TopicConfig(conf);
    }
  }

  /** createTopics (lines 17-149): set-up, then the exchange, then, on
      success only, the cleanup lambda. The source's `timeoutMs` defaults
      to 1000 ms; the model takes it as an argument. */
  method CreateTopics(names: seq<string>, conf: TopicConf, timeoutMs: uint32, b: Responses)
    returns (r: Result<Unit, Err>, calls: seq<Call>, ghost acquired: seq<Handle>, ghost released: seq<Handle>)
    ensures r == Outcome(CreateTopicsOp, |names|, b)
    ensures calls == Trace(CreateTopicsOp, CreateTopicsRequest(NewTopics(names, conf)), |names|, timeoutMs, b)
    ensures r.Success? ==> acquired == AcquireOrder(|names|) && released == ReleaseOrder(|names|)
    ensures r.Failure? ==> released == [] && |acquired| > 0 && acquired[0] == ConfH
    ensures r.Failure? && r.error !in {BootstrapRejected, ClientFailed} ==> ClientH in acquired && QueueH in acquired
  {
    var e, request;
    e, request, acquired := SetUpCreate(names, conf, b);
    calls, released := [], [];
    if e.Some? {
      r := Failure(e.value);
      return;
    }
    r, calls := Exchange(CreateTopicsOp, CreateTopicsRequest(request), |names|, timeoutMs, b);
    if b.reply.Some? {
      acquired := acquired + [EventH];
    }
    if r.Failure? {
      return;
    }
    released := Cleanup(|names|);
  }

  /** The set-up of deleteTopics (lines 153-203): as for creation, with one
      delete object per name and no config entries. */
  method SetUpDelete(names: seq<string>, b: Responses)
    returns (e: Option<Err>, request: seq<string>, ghost acquired: seq<Handle>)
    ensures e == SetupError(DeleteTopicsOp, |names|, b)
    ensures e.None? ==> request == names && acquired + [EventH] == AcquireOrder(|names|)
    ensures |acquired| > 0 && acquired[0] == ConfH
    ensures e !in {Some(BootstrapRejected), Some(ClientFailed)} ==> ClientH in acquired && QueueH in acquired
  {
    request, acquired := [], [ConfH];
    if !b.acceptsBootstrap {
      return Some(BootstrapRejected), request, acquired;
    }
    if !b.createsClient {
      return Some(ClientFailed), request, acquired;
    }
    acquired := acquired + [ClientH, QueueH, TopicArrayH];
    var topics, refusedAt := BuildDeleteObjects(names, b.refusedTopicObjects);
    if refusedAt.Some? {
      acquired := acquired + TopicObjects(refusedAt.value);
      return Some(TopicObjectFailed(refusedAt.value)), request, acquired;
    }
    acquired := acquired + TopicObjects(|names|);
    if !b.createsOptions {
      return Some(AdminOptionsFailed), request, acquired;
    }
    acquired := acquired + [OptionsH];
    if !b.acceptsTimeout {
      return Some(TimeoutRejected), request, acquired;
    }
    e, request := None, topics[..];
  }

  /** deleteTopics (lines 151-263): the same shape without the config
      step, and "unknown topic or partition" counts as deleted. The
      timeout defaults to 1000 ms in the source. */
  method DeleteTopics(names: seq<string>, timeoutMs: uint32, b: Responses)
    returns (r: Result<Unit, Err>, calls: seq<Call>, ghost acquired: seq<Handle>, ghost released: seq<Handle>)
    ensures r == Outcome(DeleteTopicsOp, |names|, b)
    ensures calls == Trace(DeleteTopicsOp, DeleteTopicsRequest(names), |names|, timeoutMs, b)
    ensures r.Success? ==> acquired == AcquireOrder(|names|) && released == ReleaseOrder(|names|)
    ensures r.Failure? ==> released == [] && |acquired| > 0 && acquired[0] == ConfH
    ensures r.Failure? && r.error !in {BootstrapRejected, ClientFailed} ==> ClientH in acquired && QueueH in acquired
  {
    var e, request;
    e, request, acquired := SetUpDelete(names, b);
    calls, released := [], [];
    if e.Some? {
      r := Failure(e.value);
      return;
    }
    r, calls := Exchange(DeleteTopicsOp, DeleteTopicsRequest(request), |names|, timeoutMs, b);
    if b.reply.Some? {
      acquired := acquired + [EventH];
    }
    if r.Failure? {
      return;
    }
    released := Cleanup(|names|);
  }

  /** The cleanup lambda of createTopics and deleteTopics on the success
      path, where every handle it tests is non-null. */
  ghost method Cleanup(n: nat) returns (released: seq<Handle>)
    ensures released == ReleaseOrder(n)
  {
    released := [EventH, OptionsH];
    for i := 0 to n
      invariant released == [EventH, OptionsH] + TopicObjects(i)
    {
      released := released + [TopicObjectH(i)];
    }
    released := released + [TopicArrayH, QueueH, ClientH];
  }

  /** The caller's `std::vector<std::string>` that GetTopicList appends to. */
  class TopicNameList {
    var names: seq<string>

    constructor (initial: seq<string>)
      ensures names == initial
    {
      names := initial;
    }

    method EmplaceBack(name: string)
      modifies this
      ensures names == old(names) + [name]
    {
      names := names + [name];
    }
  }

  /** GetTopicList (lines 265-307): fetch a metadata snapshot of all topics
      and append its topic names to `list`, in snapshot order. */
  method GetTopicList(list: TopicNameList, timeoutMs: uint32, b: Responses)
    returns (r: Result<Unit, Err>, calls: seq<Call>, ghost acquired: seq<Handle>, ghost released: seq<Handle>)
    modifies list
    ensures r.Success? <==> b.acceptsBootstrap && b.createsClient && b.metadata.Some?
    ensures !b.acceptsBootstrap ==> r == Failure(BootstrapRejected)
    ensures b.acceptsBootstrap && !b.createsClient ==> r == Failure(ClientFailed)
    ensures b.acceptsBootstrap && b.createsClient && b.metadata.None? ==> r == Failure(MetadataFailed)
    ensures calls == if b.acceptsBootstrap && b.createsClient then [FetchMetadata(true, AsCInt(timeoutMs))] else []
    ensures r.Success? ==> list.names == old(list.names) + b.metadata.value
    ensures r.Failure? ==> list.names == old(list.names)
    ensures r.Success? ==> acquired == [ConfH, ClientH, MetadataH] && released == [MetadataH, ClientH]
    ensures r.Failure? ==> released == []
  {
    calls, acquired, released := [], [ConfH], [];
    if !b.acceptsBootstrap {
      r := Failure(BootstrapRejected);
      return;
    }
    if !b.createsClient {
      r := Failure(ClientFailed);
      return;
    }
    acquired := acquired + [ClientH];
    calls := [FetchMetadata(true, AsCInt(timeoutMs))];
    if b.metadata.None? {
      r := Failure(MetadataFailed);
      return;
    }
    acquired := acquired + [MetadataH];
    var topics := b.metadata.value;
    var i := 0;
    while i < |topics|
      invariant 0 <= i <= |topics|
      invariant list.names == old(list.names) + topics[..i]
    {
      list.EmplaceBack(topics[i]);
      i := i + 1;
    }
    r := Success(Unit);
    released := [MetadataH, ClientH];
  }
}
