/** The scheduler's send tasks and how a bridge ack or retry changes them. */
module TaskProjection {
  import opened SendParts
  import opened QueueProjection

  datatype TaskStatus = TaskQueued | TaskRunning | TaskCompleted | TaskFailed | TaskCancelled

  predicate Terminal(s: TaskStatus) {
    s == TaskCompleted || s == TaskFailed || s == TaskCancelled
  }

  /** `finished` says whether `finished_at` is set; `localStatuses` and `sendFailed` are the
      statuses of the parts that never went to the bridge. */
  datatype SendTask = SendTask(
    status: TaskStatus,
    finished: bool,
    externalId: string,
    detail: string,
    lastError: string,
    bridgeId: string,
    bridgeIds: seq<BridgeId>,
    acks: map<BridgeId, AckRecord>,
    lastAckId: string,
    sendReason: string,
    localStatuses: seq<Status>,
    sendFailed: bool)

  predicate TaskReferences(t: SendTask, id: BridgeId) {
    || t.externalId == id
    || t.bridgeId == id
    || id in t.bridgeIds
    || id in t.acks
    || t.lastAckId == id
    || Mentions(t.detail + " " + t.lastError + " " + t.sendReason, id)
  }

  /** A part of the reply that never went to the bridge ended with the status: it is listed, or, when none is
      listed, sending failed as a whole. */
  predicate LocalPart(t: SendTask, s: Status) {
    s in t.localStatuses || (t.localStatuses == [] && t.sendFailed && s == Failed)
  }

  function TaskLocal(t: SendTask): seq<Status> {
    if t.localStatuses != [] then t.localStatuses
    else if t.sendFailed then [Failed] else []
  }

  lemma TaskLocalExact(t: SendTask)
    ensures forall s :: s in TaskLocal(t) <==> LocalPart(t, s)
  {
  }

  predicate SameLocalParts(t: SendTask, t': SendTask) {
    t'.localStatuses == t.localStatuses && t'.sendFailed == t.sendFailed
  }

  lemma LocalPartsStay(t: SendTask, t': SendTask)
    requires SameLocalParts(t, t')
    ensures forall s :: LocalPart(t', s) <==> LocalPart(t, s)
  {
  }

  function TaskExpectedIds(t: SendTask, a: Ack): seq<BridgeId> {
    Dedupe(t.bridgeIds + [a.id])
  }

  function TaskAggregate(t: SendTask, a: Ack): Status {
    var ids := TaskExpectedIds(t, a);
    if |ids| > 1 || TaskLocal(t) != [] then AggregateQueue(ids, AcksWith(t.acks, a), TaskLocal(t))
    else Mapped(a.status)
  }

  /** Completed absorbs everything; a terminal task absorbs a queued aggregate. */
  function TaskNextStatus(t: SendTask, a: Ack): TaskStatus {
    var agg := TaskAggregate(t, a);
    if t.status == TaskCompleted && agg != Sent then TaskCompleted
    else if Terminal(t.status) && agg == Queued then t.status
    else if agg == Queued then TaskQueued
    else if agg == Sent || agg == Accepted then TaskCompleted
    else TaskFailed
  }

  function JoinNames(ss: seq<Status>): string {
    if ss == [] then "" else if |ss| == 1 then StatusName(ss[0]) else StatusName(ss[0]) + "," + JoinNames(ss[1..])
  }

  function TaskSummary(t: SendTask, a: Ack): string {
    var summary := Summary(TaskExpectedIds(t, a), AcksWith(t.acks, a));
    if TaskLocal(t) == [] then summary
    else summary + ";local_parts:" + (if t.sendReason != "" then t.sendReason else JoinNames(TaskLocal(t)))
  }

  /** The patch for one ack merged into the task. */
  function TaskWithAck(t: SendTask, a: Ack): SendTask {
    var ids := TaskExpectedIds(t, a);
    var summary := TaskSummary(t, a);
    var agg := TaskAggregate(t, a);
    var keep := Terminal(t.status) && (if t.status == TaskCompleted && agg != Sent then true else agg == Queued);
    var status := TaskNextStatus(t, a);
    SendTask(
      status,
      t.finished || Terminal(status),
      if t.externalId != "" then t.externalId else ids[0],
      if keep && t.detail != "" then t.detail else summary,
      if keep then (if t.status == TaskCompleted && agg != Sent then "" else t.lastError)
      else if status == TaskFailed then summary else "",
      if t.bridgeId != "" then t.bridgeId else ids[0],
      ids,
      AcksWith(t.acks, a),
      a.id,
      t.sendReason,
      t.localStatuses,
      t.sendFailed)
  }

  function TaskAfter(t: SendTask, a: Ack): SendTask {
    if TaskReferences(t, a.id) then TaskWithAck(t, a) else t
  }

  // ---------------------------------------------------------------- retry

  predicate TaskReferencesAny(t: SendTask, ids: set<BridgeId>) {
    exists b | b in ids :: TaskReferences(t, b)
  }

  function TaskRetriedIds(t: SendTask, op: RetryOp): seq<BridgeId> {
    var ids := ReplaceIds(t.bridgeIds, op.dead, op.next);
    if ids == [] then [op.next] else ids
  }

  function TaskWithRetry(t: SendTask, op: RetryOp): SendTask {
    t.(status := TaskQueued,
       finished := false,
       externalId := if t.externalId == "" then op.next else ReplaceField(t.externalId, op.dead, op.next),
       detail := op.reason,
       lastError := "",
       bridgeId := if t.bridgeId == "" then op.next else ReplaceField(t.bridgeId, op.dead, op.next),
       bridgeIds := TaskRetriedIds(t, op),
       acks := KeepAcks(t.acks, op),
       lastAckId := if t.lastAckId in op.dead then "" else t.lastAckId,
       sendReason := op.reason)
  }

  function TaskRetry(t: SendTask, op: RetryOp): SendTask {
    if TaskReferencesAny(t, op.dead) then TaskWithRetry(t, op) else t
  }
}
