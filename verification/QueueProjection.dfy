/** The confirm-queue item of one reply: how a terminal bridge ack and a bridge retry change it. */
module QueueProjection {
  import opened Wrappers
  import opened SendParts

  /** `details` is absent for a plain text reply; then the item expects a single bridge id. */
  datatype QueueItem = QueueItem(
    status: Status,
    note: string,
    retryOf: string,
    bridgeIds: seq<BridgeId>,
    acks: map<BridgeId, AckRecord>,
    lastAckId: string,
    messageId: string,
    resultReason: string,
    details: Option<Details>)

  /** A terminal ack as it reaches the projections; an empty reason has already been
      replaced by the default `bridge_ack:<status>`. */
  datatype Ack = Ack(id: BridgeId, status: AckStatus, reason: string)

  /** The key a text or file part is found under in the queue: the message id, or else the bridge id. */
  function PartKey(p: Part): string {
    if p.messageId != "" then p.messageId else p.bridgeId
  }

  predicate DetailsReference(d: Details, id: BridgeId) {
    || id in d.ids
    || (d.text.Some? && PartKey(d.text.value) == id)
    || exists i | 0 <= i < |d.files| :: PartKey(d.files[i]) == id || Mentions(d.files[i].reason, id)
  }

  predicate QueueReferences(q: QueueItem, id: BridgeId) {
    || Mentions(q.note, id)
    || q.retryOf == id
    || id in q.bridgeIds
    || id in q.acks
    || q.lastAckId == id
    || q.messageId == id
    || Mentions(q.resultReason, id)
    || (q.details.Some? && DetailsReference(q.details.value, id))
  }

  predicate ReferencesSome(p: Part, ids: seq<BridgeId>) {
    exists b | b in ids :: References(p, b)
  }

  /** Statuses of the parts that reference none of the expected ids: the local parts. */
  function LocalStatuses(ps: seq<Part>, ids: seq<BridgeId>): seq<Status> {
    if ps == [] then []
    else if ReferencesSome(ps[0], ids) then LocalStatuses(ps[1..], ids)
    else [ps[0].status] + LocalStatuses(ps[1..], ids)
  }

  /** They are exactly the statuses of the unreferenced parts. */
  lemma {:induction false} LocalStatusesExact(ps: seq<Part>, ids: seq<BridgeId>)
    ensures forall s :: s in LocalStatuses(ps, ids)
                        <==> exists i | 0 <= i < |ps| :: !ReferencesSome(ps[i], ids) && ps[i].status == s
    ensures (forall i | 0 <= i < |ps| :: ReferencesSome(ps[i], ids)) ==> LocalStatuses(ps, ids) == []
  {
    if ps != [] {
      var rest := ps[1..];
      LocalStatusesExact(rest, ids);
      assert forall i | 0 <= i < |rest| :: rest[i] == ps[i + 1];
      assert forall i | 0 < i < |ps| :: ps[i] == rest[i - 1];
    }
  }

  /** Which status changes the queue file accepts.  In particular nothing leaves `Sent`,
      and neither `Failed` nor `Accepted` goes back to `Queued`. */
  predicate Allowed(current: Status, next: Status) {
    || current == next
    || match current
       case Pending => next == Approved || next == Rejected
       case Approved => next in {Rejected, Queued, Sent, Accepted, Failed}
       case Queued => next in {Sent, Accepted, Failed}
       case Accepted => next in {Sent, Failed}
       case Failed => next in {Sent, Accepted}
       case _ => false
  }

  function StatusName(s: Status): string {
    match s
    case Pending => "pending"
    case Approved => "approved"
    case Rejected => "rejected"
    case Queued => "queued_to_bridge"
    case Accepted => "accepted"
    case Sent => "sent"
    case Failed => "failed"
    case Blocked => "blocked"
  }

  /** What a summary says of one id after naming it. */
  function Report(id: BridgeId, acks: map<BridgeId, AckRecord>): string {
    ":" + StatusName(RecordedStatus(acks, id)) + ":"
    + (if id in acks && acks[id].reason != "" then acks[id].reason else "pending_bridge_ack")
  }

  function JoinParts(ids: seq<BridgeId>, acks: map<BridgeId, AckRecord>): string {
    if ids == [] then ""
    else ids[0] + Report(ids[0], acks) + if |ids| == 1 then "" else ";" + JoinParts(ids[1..], acks)
  }

  function Summary(ids: seq<BridgeId>, acks: map<BridgeId, AckRecord>): string {
    if ids == [] then "bridge_ack_parts:empty" else "bridge_ack_parts:" + JoinParts(ids, acks)
  }

  /** What one attempt to apply an ack to the queue comes to.  `reason` is what the
      ledger is told for the item as a whole. */
  datatype QueueOutcome =
    | NotFound
    | Refused                                       // the new status is not an allowed transition: nothing is stored
    | Preserved(reason: string)                     // the item was sent and stays as it is
    | Updated(item: QueueItem, reason: string)

  function ExpectedIds(q: QueueItem, a: Ack): seq<BridgeId> {
    Dedupe(q.bridgeIds + [a.id])
  }

  function AcksWith(acks: map<BridgeId, AckRecord>, a: Ack): map<BridgeId, AckRecord> {
    acks[a.id := AckRecord(Mapped(a.status), a.reason)]
  }

  /** The status the item would get from this ack. */
  function NextStatus(q: QueueItem, a: Ack): Status {
    var ids := ExpectedIds(q, a);
    var local := LocalStatuses(PartsOf(q.details), ids);
    if |ids| > 1 || local != [] then AggregateQueue(ids, AcksWith(q.acks, a), local) else Mapped(a.status)
  }

  function LocalReason(q: QueueItem): string {
    if q.resultReason != "" then q.resultReason else "local_part_failed"
  }

  function NextReason(q: QueueItem, a: Ack): string {
    var ids := ExpectedIds(q, a);
    var local := LocalStatuses(PartsOf(q.details), ids);
    var summary := Summary(ids, AcksWith(q.acks, a));
    if local != [] then summary + ";local_parts:" + LocalReason(q)
    else if |ids| > 1 then summary
    else a.reason
  }

  function DetailsWithAck(d: Option<Details>, ids: seq<BridgeId>, a: Ack): Option<Details> {
    match d
    case None => None
    case Some(x) => Some(x.(ids := ids).Ack(a.id, Mapped(a.status), a.reason))
  }

  function ItemWithAck(q: QueueItem, a: Ack): QueueItem {
    var ids := ExpectedIds(q, a);
    var reason := NextReason(q, a);
    q.(status := NextStatus(q, a),
       note := reason,
       bridgeIds := ids,
       acks := AcksWith(q.acks, a),
       lastAckId := a.id,
       messageId := if q.messageId == "" && |ids| == 1 then ids[0] else q.messageId,
       resultReason := reason,
       details := DetailsWithAck(q.details, ids, a))
  }

  function ApplyAck(q: QueueItem, a: Ack): QueueOutcome {
    if !QueueReferences(q, a.id) then NotFound
    else if q.status == Sent && NextStatus(q, a) != Sent then Preserved(if q.note != "" then q.note else a.reason)
    else if !Allowed(q.status, NextStatus(q, a)) then Refused
    else Updated(ItemWithAck(q, a), NextReason(q, a))
  }

  /** The item after an ack. */
  function QueueAfter(q: QueueItem, a: Ack): QueueItem {
    match ApplyAck(q, a)
    case Updated(item, _) => item
    case _ => q
  }

  // ---------------------------------------------------------------- retry

  /** One retry: the parent recorded on the item, the new id and the reason text.  `dead` is the set of
      candidate ids that the projections replace: the superseded ids and, in every retry that is made,
      the new id itself, so that publishing a retry again is a retry too. */
  datatype RetryOp = RetryOp(dead: set<BridgeId>, parent: BridgeId, next: BridgeId, reason: string)

  function KeepAcks(acks: map<BridgeId, AckRecord>, op: RetryOp): map<BridgeId, AckRecord> {
    map b | b in acks && b !in op.dead && b != op.next :: acks[b]
  }

  /** The queue's status after a retry looks at the ids only, not at local parts. */
  function AggregateRequeued(ids: seq<BridgeId>, acks: map<BridgeId, AckRecord>): Status {
    var statuses := RecordedStatuses(ids, acks);
    if Failed in statuses then Failed
    else if Queued in statuses then Queued
    else if Accepted in statuses then Accepted
    else if statuses != [] && (forall s | s in statuses :: s == Sent) then Sent
    else Queued
  }

  function ItemWithRetry(q: QueueItem, op: RetryOp): QueueItem {
    var ids := RetryIds(q.bridgeIds, op.dead, op.next);
    var acks := KeepAcks(q.acks, op);
    q.(status := AggregateRequeued(ids, acks),
       note := op.reason,
       retryOf := op.parent,
       bridgeIds := ids,
       acks := acks,
       lastAckId := "",
       messageId := ReplaceField(q.messageId, op.dead, op.next),
       resultReason := op.reason,
       details := match q.details case None => None case Some(d) => Some(d.Retry(op.dead, op.next, op.reason)))
  }

  predicate QueueReferencesAny(q: QueueItem, ids: set<BridgeId>) {
    exists b | b in ids :: QueueReferences(q, b)
  }

  function QueueRetry(q: QueueItem, op: RetryOp): QueueItem {
    if QueueReferencesAny(q, op.dead) && q.status != Rejected then ItemWithRetry(q, op) else q
  }
}
