/** The send record of the assistant entry that carries a reply, as the conversation ledger keeps it. */
module LedgerProjection {
  import opened Wrappers
  import opened SendParts
  import opened QueueProjection

  /** `top` holds the record's own status, id fields and reason; `attachments` the
      send record of each attachment. */
  datatype LedgerSend = LedgerSend(top: Part, details: Option<Details>, attachments: seq<Part>)

  predicate LedgerMatches(l: LedgerSend, id: BridgeId) {
    || References(l.top, id)
    || (l.details.Some? && id in l.details.value.ids)
    || ReferencedIn(PartsOf(l.details), id)
    || ReferencedIn(l.attachments, id)
  }

  predicate ReferencedIn(ps: seq<Part>, id: BridgeId) {
    exists i | 0 <= i < |ps| :: References(ps[i], id)
  }

  /** Copy the queue item's status to the record itself; a terminal record ignores a queued status. */
  function TopSync(l: LedgerSend, status: Status, reason: string, messageId: string): LedgerSend {
    if l.top.status in {Sent, Accepted, Failed} && status in {Pending, Queued} then l
    else l.(top := l.top.(status := status, reason := reason, messageId := messageId))
  }

  /** Fold one ack into the parts and attachments that reference its id. */
  function LedgerAck(l: LedgerSend, id: BridgeId, status: Status, reason: string): LedgerSend {
    if !LedgerMatches(l, id) then l
    else match l.details
      case None =>
        LedgerSend(l.top.(status := status, reason := reason), None, AckParts(l.attachments, id, status, reason))
      case Some(d) =>
        var d' := d.Ack(id, status, reason);
        var agg := AggregateLedger(Statuses(d'.Parts()));
        LedgerSend(if agg.Some? then l.top.(status := agg.value) else l.top,
                   Some(d'), AckParts(l.attachments, id, status, reason))
  }

  predicate LedgerMatchesAny(l: LedgerSend, ids: set<BridgeId>) {
    exists b | b in ids :: LedgerMatches(l, b)
  }

  predicate SomeReferencesAny(ps: seq<Part>, ids: set<BridgeId>) {
    exists i | 0 <= i < |ps| :: ReferencesAny(ps[i], ids)
  }

  function RetriedTopStatus(d: Option<Details>, op: RetryOp): Status {
    match d
    case None => Queued
    case Some(x) =>
      match AggregateLedger(Statuses(x.Retry(op.dead, op.next, op.reason).Parts()))
      case None => Queued
      case Some(agg) =>
        if !SomeReferencesAny(x.Parts(), op.dead) && agg in {Sent, Accepted} then Queued else agg
  }

  function LedgerRetry(l: LedgerSend, op: RetryOp): LedgerSend {
    if !LedgerMatchesAny(l, op.dead) then l
    else LedgerSend(
      Part(ReplaceField(l.top.messageId, op.dead, op.next), ReplaceField(l.top.bridgeId, op.dead, op.next),
           ReplaceField(l.top.externalId, op.dead, op.next), RetriedTopStatus(l.details, op), op.reason),
      match l.details case None => None case Some(d) => Some(d.Retry(op.dead, op.next, op.reason)),
      RetryParts(l.attachments, op.dead, op.next, op.reason))
  }
}
