/** What an ack and a retry make of a ledger record, in terms of what the record and the queue item hold. */
module RecordOutcomes {
  import opened Wrappers
  import opened SendParts
  import opened QueueProjection
  import opened LedgerProjection
  import opened SendSync
  import opened ItemOutcomes

  /** A record is found under the ids of its list, and under every id that a field or the reason of the record
      itself, of a part or of an attachment holds. */
  lemma FoundExactly(l: LedgerSend, id: BridgeId)
    ensures LedgerMatches(l, id)
            <==> || (exists p | p in [l.top] + PartsOf(l.details) + l.attachments ::
                       id in {p.messageId, p.bridgeId, p.externalId} || Mentions(p.reason, id))
                 || (l.details.Some? && id in l.details.value.ids)
  {
    var all := [l.top] + PartsOf(l.details) + l.attachments;
    assert all[0] == l.top;
    assert forall p :: p in all <==> p == l.top || p in PartsOf(l.details) || p in l.attachments;
  }

  // ---------------------------------------------------------------- acks

  /** The status that the ledger is told: sent for a preserved item, and else the ack's own. */
  ghost predicate Told(q: QueueItem, a: Ack, s: Status) {
    s == if ApplyAck(q, a).Preserved? || a.status == AckSent then Sent
         else if a.status == AckAccepted then Accepted
         else if a.status == AckBlocked then Blocked
         else Failed
  }

  ghost function ToldReason(q: QueueItem, a: Ack): string {
    if ApplyAck(q, a).Preserved? then ApplyAck(q, a).reason else a.reason
  }

  /** The queue stored or preserved the item, and its status reaches the record: what is done does not wait again. */
  ghost predicate Taken(q: QueueItem, l: LedgerSend, a: Ack) {
    && (ApplyAck(q, a).Updated? || ApplyAck(q, a).Preserved?)
    && !(l.top.status in {Sent, Accepted, Failed} && QueueAfter(q, a).status in {Pending, Queued})
  }

  lemma PartsExactly(l: LedgerSend, id: BridgeId, status: Status, reason: string)
    requires LedgerMatches(l, id)
    ensures PartsAcked(PartsOf(l.details), PartsOf(LedgerAck(l, id, status, reason).details), id, status, reason)
    ensures PartsAcked(l.attachments, LedgerAck(l, id, status, reason).attachments, id, status, reason)
  {
  }

  lemma TopExactly(l: LedgerSend, id: BridgeId, status: Status, reason: string)
    requires LedgerMatches(l, id)
    ensures var r := LedgerAck(l, id, status, reason);
            && (l.details.None? ==> r.details.None? && r.top == l.top.(status := status, reason := reason))
            && (l.details.Some? ==>
                  && r.details.Some? && r.details.value.ids == l.details.value.ids
                  && r.top == l.top.(status := r.top.status)
                  && AggregateLedger(Statuses(PartsOf(r.details)))
                     == if PartsOf(l.details) == [] then None else Some(r.top.status))
            && (PartsOf(l.details) == [] && l.details.Some? ==> r.top == l.top)
  {
  }

  /** The record that the parts are folded into: the queue's status copied to it, if it takes it. */
  ghost function Synced(q: QueueItem, l: LedgerSend, a: Ack): LedgerSend {
    if Taken(q, l, a)
    then l.(top := l.top.(status := QueueAfter(q, a).status, reason := ApplyAck(q, a).reason, messageId := a.id))
    else l
  }

  lemma FoldedInto(q: QueueItem, l: LedgerSend, a: Ack, s: Status)
    requires Told(q, a, s)
    ensures LedgerAfter(q, l, a) == LedgerAck(Synced(q, l, a), a.id, s, ToldReason(q, a))
    ensures Taken(q, l, a) || LedgerMatches(l, a.id) ==> LedgerMatches(Synced(q, l, a), a.id)
  {
    if Taken(q, l, a) { assert References(Synced(q, l, a).top, a.id); }
    SyncedExactly(q, l, a);
  }

  lemma SyncedExactly(q: QueueItem, l: LedgerSend, a: Ack)
    ensures ApplyAck(q, a).Updated? || ApplyAck(q, a).Preserved? ==>
              TopSync(l, QueueAfter(q, a).status, ApplyAck(q, a).reason, a.id) == Synced(q, l, a)
  {
  }

  /** Every part and attachment that the ack finds shows it. */
  lemma AckedPartsExactly(q: QueueItem, l: LedgerSend, a: Ack, s: Status)
    requires (Taken(q, l, a) || LedgerMatches(l, a.id)) && Told(q, a, s)
    ensures PartsAcked(PartsOf(l.details), PartsOf(LedgerAfter(q, l, a).details), a.id, s, ToldReason(q, a))
    ensures PartsAcked(l.attachments, LedgerAfter(q, l, a).attachments, a.id, s, ToldReason(q, a))
  {
    FoldedInto(q, l, a, s);
    PartsExactly(Synced(q, l, a), a.id, s, ToldReason(q, a));
  }

  /** The record keeps its bridge id and external id; its message id is the last ack's that reached it. */
  lemma AckedExactly(q: QueueItem, l: LedgerSend, a: Ack)
    requires Taken(q, l, a) || LedgerMatches(l, a.id)
    ensures var r := LedgerAfter(q, l, a);
            && r.top.bridgeId == l.top.bridgeId && r.top.externalId == l.top.externalId
            && r.top.messageId == (if Taken(q, l, a) then a.id else l.top.messageId)
            && r.top.reason == (if l.details.None? then ToldReason(q, a)
                                else if Taken(q, l, a) then ApplyAck(q, a).reason else l.top.reason)
            && r.details.Some? == l.details.Some? && (l.details.Some? ==> r.details.value.ids == l.details.value.ids)
  {
    var s :| Told(q, a, s);
    FoldedInto(q, l, a, s);
    TopExactly(Synced(q, l, a), a.id, s, ToldReason(q, a));
  }

  /** An ack that the record is not found under and that does not reach it changes nothing. */
  lemma NotAcked(q: QueueItem, l: LedgerSend, a: Ack)
    requires !Taken(q, l, a) && !LedgerMatches(l, a.id)
    ensures LedgerAfter(q, l, a) == l
  {
  }

  /** What a list of part statuses comes to: the least of those that count, or else the last. */
  ghost function Fold(shown: seq<Status>): Status
    requires shown != []
  {
    if Failed in shown then Failed
    else if Queued in shown then Queued
    else if Accepted in shown then Accepted
    else shown[|shown| - 1]
  }

  lemma FoldIsLeast(shown: seq<Status>)
    requires shown != []
    ensures AggregateLedger(shown) == Some(Fold(shown))
    ensures (forall s | s in shown :: Delivery(s)) ==> IsMeet(Fold(shown), Elements(shown))
  {
    assert shown[|shown| - 1] in shown;
    if forall s | s in shown :: Delivery(s) { AggregateLedgerIsMeet(shown); }
  }

  /** The record's own status: of a plain reply what the ledger is told, of a reply with parts what those then come
      to, and without any part what the queue shows, if that reaches it. */
  lemma AckedStatusExactly(q: QueueItem, l: LedgerSend, a: Ack)
    requires Taken(q, l, a) || LedgerMatches(l, a.id)
    ensures l.details.None? ==> Told(q, a, LedgerAfter(q, l, a).top.status)
    ensures var shown := Statuses(PartsOf(LedgerAfter(q, l, a).details));
            l.details.Some? ==>
              LedgerAfter(q, l, a).top.status
              == if shown != [] then Fold(shown) else if Taken(q, l, a) then QueueAfter(q, a).status else l.top.status
  {
    var s :| Told(q, a, s);
    FoldedInto(q, l, a, s);
    TopExactly(Synced(q, l, a), a.id, s, ToldReason(q, a));
    var shown := Statuses(PartsOf(LedgerAfter(q, l, a).details));
    if shown != [] { FoldIsLeast(shown); }
  }

  // ---------------------------------------------------------------- retries

  /** A retry that finds the record under a candidate gives it the retry's reason and replaces the ids in it, in its
      list, and in every part and attachment that a candidate finds; those wait again. */
  lemma RetriedExactly(l: LedgerSend, op: RetryOp)
    requires exists b | b in op.dead :: LedgerMatches(l, b)
    ensures var r := LedgerRetry(l, op);
            && r.top.reason == op.reason && Replaced(l.top.messageId, r.top.messageId, op)
            && Replaced(l.top.bridgeId, r.top.bridgeId, op) && Replaced(l.top.externalId, r.top.externalId, op)
            && r.details.Some? == l.details.Some?
            && PartsRetried(PartsOf(l.details), PartsOf(r.details), op)
            && PartsRetried(l.attachments, r.attachments, op)
    ensures l.details.Some? ==>
              forall b :: b in LedgerRetry(l, op).details.value.ids
                          <==> b == op.next || (b in l.details.value.ids && b !in op.dead)
  {
    PartsRewritten(PartsOf(l.details), op);
    PartsRewritten(l.attachments, op);
    if l.details.Some? { IdsRetried(l.details.value.ids, op); }
  }

  /** The record then waits, unless its parts come to something else than sent or accepted. */
  lemma RetriedStatusExactly(l: LedgerSend, op: RetryOp)
    requires exists b | b in op.dead :: LedgerMatches(l, b)
    ensures var shown := Statuses(PartsOf(LedgerRetry(l, op).details));
            LedgerRetry(l, op).top.status
            == if shown == [] || Fold(shown) in {Sent, Accepted} then Queued else Fold(shown)
  {
    if l.details.Some? {
      var ps := l.details.value.Parts();
      ShownRetried(ps, op);
      var shown := Statuses(RetryParts(ps, op.dead, op.next, op.reason));
      if shown != [] { FoldIsLeast(shown); }
    }
  }

  lemma ShownRetried(ps: seq<Part>, op: RetryOp)
    ensures SomeReferencesAny(ps, op.dead) ==> Queued in Statuses(RetryParts(ps, op.dead, op.next, op.reason))
  {
    var shown := Statuses(RetryParts(ps, op.dead, op.next, op.reason));
    if SomeReferencesAny(ps, op.dead) {
      var i :| 0 <= i < |ps| && ReferencesAny(ps[i], op.dead);
      assert shown[i] == Queued;
    }
  }

  lemma NotRetried(l: LedgerSend, op: RetryOp)
    requires forall b | b in op.dead :: !LedgerMatches(l, b)
    ensures LedgerRetry(l, op) == l
  {
  }
}
