/** What createTopics and deleteTopics promise, stated over the
    specification functions their methods are proved against. */
module AdminProperties {
  import opened KafkaTypes
  import opened BrokerSession
  import opened ResultChecks
  import opened TopicRequests
  import opened TopicAdmin

  /** The create request carries one topic per name, in name order, each
      with the configured partition count and replication factor (as C
      ints) and exactly the three config entries, in their fixed order. */
  lemma {:induction false} CreateRequestMirrorsNames(names: seq<string>, conf: TopicConf)
    ensures var ts := NewTopics(names, conf);
      && |ts| == |names|
      && forall i :: 0 <= i < |names| ==>
        && ts[i].name == names[i]
        && ts[i].numPartitions == AsCInt(conf.partitionCount)
        && ts[i].replicationFactor == AsCInt(conf.replicationFactor)
        && ts[i].config == [ ConfigEntry("retention.ms", conf.maxRetentionMs as nat),
                             ConfigEntry("max.message.bytes", conf.maxMessageBytes as nat),
                             ConfigEntry("min.insync.replicas", conf.minIsr as nat) ]
  {
  }

  /** Set-up succeeds exactly when the session accepts every step: the
      bootstrap server, the client, every topic object, the admin options,
      the timeout and, for creation, every one of the 3n config calls. */
  lemma SetupSucceedsIffEveryStepAccepted(op: AdminOp, n: nat, b: Responses)
    ensures SetupError(op, n, b).None? <==>
      && b.acceptsBootstrap && b.createsClient && b.createsOptions && b.acceptsTimeout
      && (forall i :: 0 <= i < n ==> i !in b.refusedTopicObjects)
      && (op == CreateTopicsOp ==> forall c :: 0 <= c < 3 * n ==> c !in b.refusedConfigs)
  {
  }

  /** Once set-up succeeds the session sees exactly one submission of the
      whole request with the caller's timeout, then exactly one poll with
      the same timeout; every later call only reads a result. Before that
      nothing is submitted. */
  lemma OneSubmissionOnePoll(op: AdminOp, req: Request, n: nat, timeoutMs: uint32, b: Responses)
    ensures var tr := Trace(op, req, n, timeoutMs, b);
      && (SetupError(op, n, b).None? <==> tr != [])
      && (tr != [] ==>
        && |tr| >= 2
        && tr[0] == Submit(req, AsCInt(timeoutMs))
        && tr[1] == Poll(AsCInt(timeoutMs))
        && forall i :: 2 <= i < |tr| ==> tr[i] == ReadResult(i - 2))
  {
  }

  /** A polled event that is not the matching result (or no event at all)
      fails the call before any per-topic result is read. */
  lemma WrongEventFailsBeforeInspection(op: AdminOp, req: Request, n: nat, timeoutMs: uint32, b: Responses)
    requires SetupError(op, n, b).None?
    requires b.reply.None? || b.reply.value.kind != ResultKind(op)
    ensures Outcome(op, n, b) == Failure(WrongEvent)
    ensures Trace(op, req, n, timeoutMs, b) == [Submit(req, AsCInt(timeoutMs)), Poll(AsCInt(timeoutMs))]
  {
  }

  /** A result set whose size differs from the request is a count mismatch
      reporting both sizes, never a partial success, and no result is read. */
  lemma PartialResultsRejected(op: AdminOp, req: Request, n: nat, timeoutMs: uint32, b: Responses)
    requires SetupError(op, n, b).None?
    requires b.reply.Some? && b.reply.value.kind == ResultKind(op)
    requires |b.reply.value.topicErrors| != n
    ensures Outcome(op, n, b) == Failure(CountMismatch(n, |b.reply.value.topicErrors|))
    ensures Trace(op, req, n, timeoutMs, b) == [Submit(req, AsCInt(timeoutMs)), Poll(AsCInt(timeoutMs))]
  {
  }

  /** createTopics succeeds exactly when set-up succeeds and the reply is a
      create result with one entry per topic, every one of them error-free. */
  lemma CreateSucceedsIffAllTopicsOk(n: nat, b: Responses)
    ensures Outcome(CreateTopicsOp, n, b).Success? <==>
      && SetupError(CreateTopicsOp, n, b).None?
      && b.reply.Some? && b.reply.value.kind == CreateTopicsResult
      && |b.reply.value.topicErrors| == n
      && forall i :: 0 <= i < n ==> b.reply.value.topicErrors[i] == NoError
  {
  }

  /** createTopics fails with TopicError(i, c) exactly when the reply is a
      well-formed create result whose lowest erroring index is i, with code
      c; results after i are never read. */
  lemma CreateFailsAtFirstError(n: nat, timeoutMs: uint32, conf: TopicConf, names: seq<string>, b: Responses, i: nat, c: int)
    requires |names| == n
    ensures Outcome(CreateTopicsOp, n, b) == Failure(TopicError(i, c)) <==>
      && SetupError(CreateTopicsOp, n, b).None?
      && b.reply.Some? && b.reply.value.kind == CreateTopicsResult
      && |b.reply.value.topicErrors| == n
      && i < n && c == b.reply.value.topicErrors[i] && c != NoError
      && forall j :: 0 <= j < i ==> b.reply.value.topicErrors[j] == NoError
    ensures Outcome(CreateTopicsOp, n, b) == Failure(TopicError(i, c)) ==>
      Trace(CreateTopicsOp, CreateTopicsRequest(NewTopics(names, conf)), n, timeoutMs, b)[2..] == Reads(i + 1)
  {
  }

  /** Fail-fast: once the scan stops at index i, the results after i have
      no influence on the outcome. */
  lemma LaterResultsIgnored(op: AdminOp, n: nat, b: Responses, later: seq<int>)
    requires Outcome(op, n, b).Failure? && Outcome(op, n, b).error.TopicError?
    requires var i := Outcome(op, n, b).error.index;
      |later| == n - i - 1
    ensures var i := Outcome(op, n, b).error.index;
      var codes := b.reply.value.topicErrors[..i + 1] + later;
      Outcome(op, n, b.(reply := Some(b.reply.value.(topicErrors := codes)))) == Outcome(op, n, b)
  {
    var i := Outcome(op, n, b).error.index;
    var codes := b.reply.value.topicErrors;
    var codes' := codes[..i + 1] + later;
    assert FirstFailure(op, codes) == Some(i);
    assert |codes'| == n;
    assert forall j :: 0 <= j <= i ==> codes'[j] == codes[j];
    FirstFailureIs(op, codes', i);
  }

  /** deleteTopics treats "unknown topic or partition" as deleted: a reply
      whose every code is either no error or that code succeeds. */
  lemma DeleteIsIdempotent(n: nat, b: Responses)
    requires SetupError(DeleteTopicsOp, n, b).None?
    requires b.reply.Some? && b.reply.value.kind == DeleteTopicsResult
    requires |b.reply.value.topicErrors| == n
    requires forall i :: 0 <= i < n ==>
      b.reply.value.topicErrors[i] == NoError || b.reply.value.topicErrors[i] == UnknownTopicOrPart
    ensures Outcome(DeleteTopicsOp, n, b) == Success(Unit)
  {
  }

  /** Any other non-zero code fails deleteTopics at the lowest such index. */
  lemma DeleteFailsAtFirstOtherError(n: nat, b: Responses, i: nat)
    requires SetupError(DeleteTopicsOp, n, b).None?
    requires b.reply.Some? && b.reply.value.kind == DeleteTopicsResult
    requires |b.reply.value.topicErrors| == n && i < n
    requires b.reply.value.topicErrors[i] !in {NoError, UnknownTopicOrPart}
    requires forall j :: 0 <= j < i ==> b.reply.value.topicErrors[j] in {NoError, UnknownTopicOrPart}
    ensures Outcome(DeleteTopicsOp, n, b) == Failure(TopicError(i, b.reply.value.topicErrors[i]))
  {
  }

  /** Every per-topic code createTopics accepts, deleteTopics accepts too. */
  lemma DeleteAcceptsWhatCreateAccepts(n: nat, codes: seq<int>)
    requires Verdict(CreateTopicsOp, n, Some(Event(CreateTopicsResult, codes))).Success?
    ensures Verdict(DeleteTopicsOp, n, Some(Event(DeleteTopicsResult, codes))).Success?
  {
  }

  /** A refused config entry is reported with its topic index and key: the
      failing set_config call is the first refused one, counting three per
      topic in the order retention.ms, max.message.bytes, min.insync.replicas. */
  lemma ConfigFailureIsFirstRefused(n: nat, b: Responses, t: nat, key: string)
    requires SetupError(CreateTopicsOp, n, b) == Some(TopicConfigFailed(t, key))
    ensures t < n
    ensures exists k :: (0 <= k < 3 && key == ConfigKeys[k] &&
                         3 * t + k in b.refusedConfigs &&
                         forall c :: 0 <= c < 3 * t + k ==> c !in b.refusedConfigs)
  {
  }

  /** On success, every handle acquired is released exactly once; the
      configuration object is the exception, released by the client that
      took it over. No handle is acquired twice. */
  lemma ReleasesEachAcquiredOnce(n: nat)
    ensures multiset(ReleaseOrder(n)) + multiset{ConfH} == multiset(AcquireOrder(n))
    ensures forall h :: multiset(AcquireOrder(n))[h] <= 1
  {
    AcquiredHandles(n);
    ReleasedHandles(n);
    TopicObjectsOnce(n);
  }

  /** The six fixed handles of a createTopics/deleteTopics call. */
  function FixedHandles(): multiset<Handle>
  {
    multiset{ConfH, ClientH, QueueH, TopicArrayH, OptionsH, EventH}
  }

  lemma AcquiredHandles(n: nat)
    ensures multiset(AcquireOrder(n)) == FixedHandles() + multiset(TopicObjects(n))
  {
    assert AcquireOrder(n) == [ConfH, ClientH, QueueH, TopicArrayH] + TopicObjects(n) + [OptionsH, EventH];
  }

  lemma ReleasedHandles(n: nat)
    ensures multiset(ReleaseOrder(n)) + multiset{ConfH} == FixedHandles() + multiset(TopicObjects(n))
  {
    assert ReleaseOrder(n) == [EventH, OptionsH] + TopicObjects(n) + [TopicArrayH, QueueH, ClientH];
  }

  /** The topic-object handles 0 .. n-1 each occur once, and nothing else. */
  lemma {:induction false} TopicObjectsOnce(n: nat)
    ensures forall h :: multiset(TopicObjects(n))[h] == if h.TopicObjectH? && h.index < n then 1 else 0
  {
    if n > 0 {
      TopicObjectsOnce(n - 1);
      assert TopicObjects(n) == TopicObjects(n - 1) + [TopicObjectH(n - 1)];
    }
  }

  /** Deleting a topic the broker does not know, ["t1"], succeeds. */
  lemma DeleteOfMissingTopicSucceeds(b: Responses)
    requires SetupError(DeleteTopicsOp, 1, b).None?
    requires b.reply == Some(Event(DeleteTopicsResult, [UnknownTopicOrPart]))
    ensures Outcome(DeleteTopicsOp, 1, b) == Success(Unit)
  {
  }

  /** Creating ["t1", "t2"] when the broker answers with one result is a
      count mismatch, not a partial success. */
  lemma ShortResultSetIsFatal(b: Responses)
    requires SetupError(CreateTopicsOp, 2, b).None?
    requires b.reply == Some(Event(CreateTopicsResult, [NoError]))
    ensures Outcome(CreateTopicsOp, 2, b) == Failure(CountMismatch(2, 1))
  {
  }
}
