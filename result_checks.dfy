/** Validation of the reply to a CreateTopics or DeleteTopics submission
    (create_topic.cpp lines 99-123 and 211-237): the event kind, the result
    count, then a fail-fast scan of the per-topic error codes. */
module ResultChecks {
  import opened KafkaTypes
  import opened BrokerSession

  /** Whether a per-topic error code lets the call go on. Deletion also
      accepts "unknown topic or partition": the topic is already gone. */
  predicate Accepts(op: AdminOp, code: int)
    ensures code == NoError ==> Accepts(op, code)
    ensures Accepts(op, code) ==> code in {NoError, UnknownTopicOrPart}
    ensures op == CreateTopicsOp ==> (Accepts(op, code) <==> code == NoError)
    ensures op == DeleteTopicsOp ==> (Accepts(op, code) <==> code in {NoError, UnknownTopicOrPart})
  {
    code == NoError || (op == DeleteTopicsOp && code == UnknownTopicOrPart)
  }

  /** The lowest index whose code the operation does not accept. */
  function FirstFailure(op: AdminOp, codes: seq<int>): (r: Option<nat>)
    ensures r.None? <==> forall i :: 0 <= i < |codes| ==> Accepts(op, codes[i])
    ensures r.Some? ==> r.value < |codes| && !Accepts(op, codes[r.value])
    ensures r.Some? ==> forall j :: 0 <= j < r.value ==> Accepts(op, codes[j])
  {
    if codes == [] then None
    else if !Accepts(op, codes[0]) then Some(0)
    else match FirstFailure(op, codes[1..])
      case None => None
      case Some(k) => Some(k + 1)
  }

  /** The verdict on the polled event `reply` for a request of `expected`
      topics. */
  function Verdict(op: AdminOp, expected: nat, reply: Option<Event>): (r: Result<Unit, Err>)
    ensures r.Success? <==>
      && reply.Some? && reply.value.kind == ResultKind(op)
      && |reply.value.topicErrors| == expected
      && forall i :: 0 <= i < expected ==> Accepts(op, reply.value.topicErrors[i])
    ensures r == Failure(WrongEvent) <==> reply.None? || reply.value.kind != ResultKind(op)
  {
    if reply.None? || reply.value.kind != ResultKind(op) then Failure(WrongEvent)
    else if |reply.value.topicErrors| != expected then
      Failure(CountMismatch(expected, |reply.value.topicErrors|))
    else match FirstFailure(op, reply.value.topicErrors)
      case None => Success(Unit)
      case Some(i) => Failure(TopicError(i, reply.value.topicErrors[i]))
  }

  /** How many per-topic results the validation reads before it stops. */
  function Examined(op: AdminOp, expected: nat, reply: Option<Event>): (k: nat)
    ensures k <= expected
  {
    if reply.None? || reply.value.kind != ResultKind(op) then 0
    else if |reply.value.topicErrors| != expected then 0
    else match FirstFailure(op, reply.value.topicErrors)
      case None => expected
      case Some(i) => i + 1
  }

  /** The validation as the client runs it: recognise the event, compare
      the counts, then read the per-topic results in order and stop at the
      first one not accepted. `readCalls` records which results were read. */
  method CheckReply(op: AdminOp, expected: nat, reply: Option<Event>)
    returns (r: Result<Unit, Err>, readCalls: seq<Call>)
    ensures r == Verdict(op, expected, reply)
    ensures readCalls == Reads(Examined(op, expected, reply))
    ensures r.Failure? && r.error.CountMismatch? ==>
      reply.Some? && r.error == CountMismatch(expected, |reply.value.topicErrors|) && readCalls == []
    ensures r.Failure? && r.error.TopicError? ==>
      && reply.Some?
      && |reply.value.topicErrors| == expected
      && r.error.index < expected
      && r.error.code == reply.value.topicErrors[r.error.index]
      && !Accepts(op, r.error.code)
      && (forall j :: 0 <= j < r.error.index ==> Accepts(op, reply.value.topicErrors[j]))
      && readCalls == Reads(r.error.index + 1)
  {
    readCalls := [];
    if reply.None? || reply.value.kind != ResultKind(op) {
      r := Failure(WrongEvent);
      return;
    }
    var codes := reply.value.topicErrors;
    if expected != |codes| {
      r := Failure(CountMismatch(expected, |codes|));
      return;
    }
    var i := 0;
    while i < expected
      invariant 0 <= i <= expected
      invariant forall j :: 0 <= j < i ==> Accepts(op, codes[j])
      invariant readCalls == Reads(i)
    {
      readCalls := readCalls + [ReadResult(i)];
      if !Accepts(op, codes[i]) {
        r := Failure(TopicError(i, codes[i]));
        return;
      }
      i := i + 1;
    }
    r := Success(Unit);
  }

  /** FirstFailure is determined by its characterisation. */
  lemma FirstFailureIs(op: AdminOp, codes: seq<int>, k: nat)
    requires k < |codes| && !Accepts(op, codes[k])
    requires forall j :: 0 <= j < k ==> Accepts(op, codes[j])
    ensures FirstFailure(op, codes) == Some(k)
  {
  }
}
