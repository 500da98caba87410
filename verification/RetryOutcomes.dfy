/** What can go wrong around a retry, from a reply that was just queued: a failed local part that the queue
    hides, a late ack for the retry parent, and a sent item that is retried after a preserved ack. */
module RetryOutcomes {
  import opened Wrappers
  import opened SendParts
  import opened QueueProjection
  import opened LedgerProjection
  import opened SendSync
  import opened LockStep
  import opened LockStepRuns
  import opened DeliveryAgreement
  import opened DeliverySafety
  import opened SummaryTexts
  import opened RetryFencing
  import opened LateAcks
  import opened LockStepRetries

  // ---------------------------------------------------------------- a hidden failure

  /** If a retry hides a failed local part, the queue waits for the bridge while the ledger shows the failure. */
  lemma HiddenFailureShows(q: QueueItem, l: LedgerSend, owners: seq<Owner>, attached: seq<Owner>, lag: set<BridgeId>,
                           op: RetryOp)
    requires InStep(q, l, owners, attached, lag) && FreshRetry(q, l, op) && !NothingHidden(q, op) && lag - op.dead == {}
    ensures QueueRetry(q, op).status == Queued && LedgerRetry(l, op).top.status == Failed
  {
    RetryInStepExactly(q, l, owners, attached, lag, op);
    RetryQueueSide(q, l, owners, op);
    RetryTopStatus(q, l, owners, attached, lag, op);
    var q' := QueueRetry(q, op);
    LocalStatusesDelivery(PartsOf(q.details), q.bridgeIds, owners);
    FoldMembers(q'.bridgeIds, q'.acks, Local(q'));
    assert InFold(Failed, q'.bridgeIds, q'.acks, Local(q'));
  }

  lemma TooShort(text: string, id: string)
    requires |text| < |id|
    ensures !Mentions(text, id)
  {
  }

  /** A reply whose text could not be sent locally and whose file went to the bridge. */
  function LocalAndBridged(b: BridgeId): SendState {
    var text, file := Part("", "", "", Failed, ""), Part(b, b, "", Queued, "");
    var details := Details([b], Some(text), [file]);
    SendState(QueueItem(Failed, "", "", [b], map[], "", "", "", Some(details)),
              LedgerSend(Part("", "", "", Failed, ""), Some(details), []), [])
  }

  lemma LocalAndBridgedIsFresh(b: BridgeId)
    ensures Fresh(LocalAndBridged(b), [None, Some(b)], []) && Failed in Local(LocalAndBridged(b).queue)
  {
    var s := LocalAndBridged(b);
    var ps := PartsOf(s.queue.details);
    TooShort("", b);
    assert ps == [Part("", "", "", Failed, ""), Part(b, b, "", Queued, "")];
    assert Owned(ps[0], [b], None, true) && Owned(ps[1], [b], Some(b), true);
    LocalStatusesExact(ps, [b]);
    assert !ReferencesSome(ps[0], [b]) && ps[0].status == Failed;
    var owners: seq<Owner> := [None, Some(b)];
    assert owners[1] == Some(b);
    assert Failed in Local(s.queue) + RecordedStatuses([b], map[]);
  }

  lemma AckKeepsUnused(ps: seq<Part>, id: BridgeId, status: Status, reason: string, n: BridgeId)
    requires Unused(ps, n) && !Mentions(reason, n)
    ensures Unused(AckParts(ps, id, status, reason), n)
  {
    forall i | 0 <= i < |ps|
      ensures !References(AckParts(ps, id, status, reason)[i], n)
    {
      assert !References(ps[i], n);
    }
  }

  /** The parts of both copies after an ack that the queue stored. */
  lemma StoredCopies(q: QueueItem, l: LedgerSend, owners: seq<Owner>, attached: seq<Owner>, a: Ack)
    requires QueueSide(q, owners) && LedgerSide(q, l, owners, attached, {})
    requires a.id in q.bridgeIds && ApplyAck(q, a).Updated?
    ensures QueueAfter(q, a).bridgeIds == q.bridgeIds && Local(QueueAfter(q, a)) == Local(q)
    ensures PartsOf(QueueAfter(q, a).details) == AckParts(PartsOf(q.details), a.id, Mapped(a.status), a.reason)
    ensures PartsOf(LedgerAfter(q, l, a).details) == AckParts(PartsOf(l.details), a.id, Raw(a.status), a.reason)
    ensures LedgerAfter(q, l, a).attachments == AckParts(l.attachments, a.id, Raw(a.status), a.reason)
  {
    StoredQueue(q, owners, a);
    QueueStep(q, owners, a);
    LedgerAfterFields(q, l, owners, attached, {}, a);
  }

  lemma UnusedIsFresh(q: QueueItem, l: LedgerSend, b: BridgeId, op: RetryOp)
    requires q.bridgeIds == [b] && op.dead == {op.next, b} && op.next != b
    requires Unused(PartsOf(q.details), op.next)
    requires Unused(PartsOf(l.details), op.next) && Unused(l.attachments, op.next)
    ensures FreshRetry(q, l, op) && (Failed in Local(q) ==> !NothingHidden(q, op))
  {
    assert b in q.bridgeIds && b in op.dead;
  }

  /** For every reply with a failed local part and one bridged id: the bridged part fails too and is retried.
      Then the queue is queued again and the ledger failed. */
  lemma HiddenFailure(s: SendState, owners: seq<Owner>, attached: seq<Owner>, b: BridgeId, a: Ack, op: RetryOp)
    requires Fresh(s, owners, attached) && s.queue.bridgeIds == [b] && Failed in Local(s.queue)
    requires op.dead == {op.next, b} && op.next != b
    requires Unused(PartsOf(s.queue.details), op.next) && Unused(s.ledger.attachments, op.next)
    requires a.id == b && a.status == AckFailed && !Mentions(a.reason, op.next)
    ensures Clean(a, s.queue.bridgeIds)
    ensures var t := SyncRetry(SyncAck(s, a), op); t.queue.status == Queued && t.ledger.top.status == Failed
  {
    FreshInStep(s, owners, attached);
    FailureIsStored(s.queue, owners, a);
    assert Clean(a, s.queue.bridgeIds) && {} - {a.id} == {};
    StepStored(s.queue, s.ledger, owners, attached, {}, a);
    StoredCopies(s.queue, s.ledger, owners, attached, a);
    AckKeepsUnused(PartsOf(s.queue.details), b, Failed, a.reason, op.next);
    AckKeepsUnused(s.ledger.attachments, b, Failed, a.reason, op.next);
    HiddenIn(SyncAck(s, a), owners, attached, b, op);
  }

  lemma HiddenIn(s: SendState, owners: seq<Owner>, attached: seq<Owner>, b: BridgeId, op: RetryOp)
    requires InStep(s.queue, s.ledger, owners, attached, {}) && s.queue.bridgeIds == [b] && Failed in Local(s.queue)
    requires op.dead == {op.next, b} && op.next != b
    requires Unused(PartsOf(s.queue.details), op.next) && Unused(PartsOf(s.ledger.details), op.next)
    requires Unused(s.ledger.attachments, op.next)
    ensures var t := SyncRetry(s, op); t.queue.status == Queued && t.ledger.top.status == Failed
  {
    UnusedIsFresh(s.queue, s.ledger, b, op);
    HiddenFailureShows(s.queue, s.ledger, owners, attached, {}, op);
  }

  /** An item that is not sent stores every failure. */
  lemma FailureIsStored(q: QueueItem, owners: seq<Owner>, a: Ack)
    requires QueueSide(q, owners) && a.id in q.bridgeIds && a.status == AckFailed && q.status != Sent
    ensures ApplyAck(q, a).Updated?
  {
    QueueVerdict(q, owners, a);
  }

  /** Such replies exist. */
  lemma HiddenFailureExists(b: BridgeId, n: BridgeId) returns (s: SendState)
    requires n != b
    ensures Fresh(s, [None, Some(b)], []) && s.queue.bridgeIds == [b] && Failed in Local(s.queue)
    ensures Unused(PartsOf(s.queue.details), n) && Unused(s.ledger.attachments, n)
  {
    s := LocalAndBridged(b);
    LocalAndBridgedIsFresh(b);
    TooShort("", n);
  }

  // ---------------------------------------------------------------- a late ack for the retry parent

  /** Right after a retry a late ack for a fenced id is ignored if and only if the id is not the retry
      parent, or the item is failed and the new fold would be queued.  Otherwise the superseded id is an
      expected id again, with the ack on record. */
  lemma LateAckAfterRetry(s: SendState, op: RetryOp, a: Ack)
    requires QueueSound(s.queue) && QueueRetry(s.queue, op) != s.queue && Fenced(SyncRetry(s, op), a.id)
    ensures var t := SyncRetry(s, op);
            SyncAck(t, a) == t
            <==> t.queue.retryOf != a.id || (t.queue.status == Failed && NextStatus(t.queue, a) == Queued)
    ensures var t := SyncRetry(s, op); var u := SyncAck(t, a);
            u != t ==>
              u.queue.bridgeIds == Dedupe(t.queue.bridgeIds + [a.id]) && u.queue.acks == AcksWith(t.queue.acks, a)
  {
    var t := SyncRetry(s, op);
    QueueSoundRetry(s.queue, op);
    NextIsDelivery(t.queue, a);
    AllowedOnDelivery(t.queue.status, NextStatus(t.queue, a));
    LateAck(t, a);
    if SyncAck(t, a) != t { TakenIsStored(t.queue, a); }
  }

  lemma TakenIsStored(q: QueueItem, a: Ack)
    requires q.retryOf == a.id && q.status != Sent && Allowed(q.status, NextStatus(q, a))
    ensures QueueAfter(q, a).bridgeIds == Dedupe(q.bridgeIds + [a.id]) && QueueAfter(q, a).acks == AcksWith(q.acks, a)
  {
  }

  /** A late failure of the retry parent is always taken: the item fails although its new id is still
      under way, its fold waits for the superseded id from now on, and the ledger record takes that id back
      as its message id.  Only the parts and the tasks stay as they are. */
  lemma LateFailureTaken(s: SendState, op: RetryOp, a: Ack)
    requires QueueSound(s.queue) && QueueRetry(s.queue, op) != s.queue && Fenced(SyncRetry(s, op), a.id)
    requires a.id == op.parent && a.status == AckFailed
    ensures var t := SyncRetry(s, op); var u := SyncAck(t, a);
            && u.queue.status == Failed && op.next !in u.queue.acks
            && u.queue.bridgeIds == Dedupe(t.queue.bridgeIds + [a.id]) && RecordedStatus(u.queue.acks, a.id) == Failed
            && u.ledger.top.messageId == a.id
            && PartsOf(u.ledger.details) == PartsOf(t.ledger.details) && u.tasks == t.tasks
  {
    var t := SyncRetry(s, op);
    QueueSoundRetry(s.queue, op);
    TakenLate(t, op.next, a);
  }

  lemma TakenLate(t: SendState, n: BridgeId, a: Ack)
    requires QueueSound(t.queue) && t.queue.status in {Queued, Failed} && t.queue.retryOf == a.id && Fenced(t, a.id)
    requires n in t.queue.bridgeIds && n !in t.queue.acks && n != a.id && a.status == AckFailed
    ensures var u := SyncAck(t, a);
            && u.queue.status == Failed && n !in u.queue.acks
            && u.queue.bridgeIds == Dedupe(t.queue.bridgeIds + [a.id]) && RecordedStatus(u.queue.acks, a.id) == Failed
            && u.ledger.top.messageId == a.id
            && PartsOf(u.ledger.details) == PartsOf(t.ledger.details) && u.tasks == t.tasks
  {
    LateFold(t.queue, n, a);
    UpdatedFields(t.queue, a);
    LateOnlyTop(t.ledger, a.id, AckFailed, a.reason, QueueAfter(t.queue, a).status, ApplyAck(t.queue, a).reason);
    LateOnlyQueue(t, a);
  }

  /** An ack that only the record itself is found under leaves its parts alone. */
  lemma LateOnlyTop(l: LedgerSend, id: BridgeId, ack: AckStatus, reason: string, status: Status, note: string)
    requires !LedgerMatches(l, id) && status == Failed
    ensures var r := LedgerAck(TopSync(l, status, note, id), id, Raw(ack), reason);
            r.top.messageId == id && PartsOf(r.details) == PartsOf(l.details)
  {
    var l' := TopSync(l, status, note, id);
    assert LedgerMatches(l', id);
    LedgerAckFields(l', id, Raw(ack), reason);
    UnreferencedParts(PartsOf(l.details), id, Raw(ack), reason);
  }

  lemma LateFold(q: QueueItem, n: BridgeId, a: Ack)
    requires QueueSound(q) && n in q.bridgeIds && a.id !in q.bridgeIds && a.status == AckFailed && q.retryOf == a.id
    requires q.status in {Queued, Failed}
    ensures NextStatus(q, a) == Failed && ApplyAck(q, a).Updated?
  {
    var ids := ExpectedIds(q, a);
    assert a.id in q.bridgeIds + [a.id] && n in q.bridgeIds + [a.id];
    assert a.id in ids && n in ids && a.id != n;
    var i :| 0 <= i < |ids| && ids[i] == a.id;
    var j :| 0 <= j < |ids| && ids[j] == n;
    assert RecordedStatuses(ids, AcksWith(q.acks, a))[i] == Failed;
  }

  lemma LateOnlyQueue(t: SendState, a: Ack)
    requires Fenced(t, a.id) && ApplyAck(t.queue, a).Updated?
    ensures SyncAck(t, a).tasks == t.tasks
  {
    forall i | 0 <= i < |t.tasks| ensures SyncAck(t, a).tasks[i] == t.tasks[i] {}
  }

  // ---------------------------------------------------------------- a late failure, from the start

  lemma SingleFails(q: QueueItem, a: Ack)
    requires QueueSide(q, []) && q.details.None? && q.status == Queued && a.id in q.bridgeIds && a.status == AckFailed
    ensures QueueAfter(q, a).status == Failed && QueueAfter(q, a).details.None?
    ensures QueueAfter(q, a).bridgeIds == q.bridgeIds
  {
    FailureIsStored(q, [], a);
    StoredQueue(q, [], a);
    SingleMirrors(q, a);
  }

  lemma SingleRequeued(q: QueueItem, op: RetryOp)
    requires q.bridgeIds == [op.parent] && op.parent in op.dead && q.status == Failed
    ensures QueueRetry(q, op) != q
  {
    assert op.parent in q.bridgeIds && QueueReferences(q, op.parent);
    RetryQueueFields(q, op);
    SingleReplaced(q.bridgeIds, op);
    assert RecordedStatuses([op.next], KeepAcks(q.acks, op)) == [Queued];
  }

  lemma FreshIsSound(q: QueueItem)
    requires q.acks == map[] && q.details.None? && q.status == Queued
    ensures QueueSound(q)
  {
  }

  lemma FailureInFold(ids: seq<BridgeId>, acks: map<BridgeId, AckRecord>, local: seq<Status>, p: BridgeId)
    requires p in ids && RecordedStatus(acks, p) == Failed
    ensures AggregateQueue(ids, acks, local) == Failed
  {
    var i :| 0 <= i < |ids| && ids[i] == p;
    assert RecordedStatuses(ids, acks)[i] == Failed;
  }

  lemma StillFailing(q: QueueItem, p: BridgeId, a: Ack)
    requires p in q.bridgeIds && a.id in q.bridgeIds && a.id != p && RecordedStatus(q.acks, p) == Failed
    ensures NextStatus(q, a) == Failed
  {
    var ids := ExpectedIds(q, a);
    assert p in q.bridgeIds + [a.id] && a.id in q.bridgeIds + [a.id];
    assert p in ids && a.id in ids;
    FailureInFold(ids, AcksWith(q.acks, a), LocalStatuses(PartsOf(q.details), ids), p);
    assert |ids| > 1;
  }

  /** A recorded failure outweighs the ack for the new id. */
  lemma StillFailed(q: QueueItem, p: BridgeId, a: Ack)
    requires q.status == Failed && p in q.bridgeIds && a.id in q.bridgeIds
    requires a.id != p && RecordedStatus(q.acks, p) == Failed
    ensures NextStatus(q, a) == Failed && ApplyAck(q, a).Updated? && QueueAfter(q, a).status == Failed
  {
    StillFailing(q, p, a);
    Outcome(q, a);
    ItemFields(q, a);
  }

  /** A record without parts shows the status of the ack itself. */
  lemma RecordShowsAck(l: LedgerSend, status: Status, note: string, id: BridgeId, shown: Status, reason: string)
    requires l.details.None? && status !in {Pending, Queued}
    ensures LedgerAck(TopSync(l, status, note, id), id, shown, reason).top.status == shown
    ensures LedgerAck(TopSync(l, status, note, id), id, shown, reason).details.None?
  {
    assert LedgerMatches(TopSync(l, status, note, id), id);
  }

  lemma SentTooLate(q: QueueItem, l: LedgerSend, p: BridgeId, a: Ack)
    requires q.status == Failed && p in q.bridgeIds && a.id in q.bridgeIds && a.id != p
    requires RecordedStatus(q.acks, p) == Failed && a.status == AckSent && l.details.None?
    ensures QueueAfter(q, a).status == Failed && LedgerAfter(q, l, a).top.status == Sent
  {
    StillFailed(q, p, a);
    RecordShowsAck(l, Failed, ApplyAck(q, a).reason, a.id, Sent, a.reason);
  }

  lemma NoPartsAfter(l: LedgerSend, id: BridgeId, status: Status, reason: string)
    requires l.details.None?
    ensures LedgerAck(l, id, status, reason).details.None?
  {
  }

  lemma NoPartsAfterAck(l: LedgerSend, q: QueueItem, a: Ack)
    requires l.details.None?
    ensures LedgerAfter(q, l, a).details.None?
  {
    var o := ApplyAck(q, a);
    if o.Preserved? {
      NoPartsAfter(TopSync(l, q.status, o.reason, a.id), a.id, Sent, o.reason);
    } else if o.Updated? {
      NoPartsAfter(TopSync(l, o.item.status, o.reason, a.id), a.id, Raw(a.status), a.reason);
    } else {
      NoPartsAfter(l, a.id, Raw(a.status), a.reason);
    }
  }

  lemma RetriedLate(s: SendState, op: RetryOp, late: Ack, done: Ack)
    requires QueueSound(s.queue) && s.queue.status == Failed
    requires QueueRetry(s.queue, op) != s.queue && s.ledger.details.None?
    requires op.parent in op.dead && Excluded(op.parent, op)
    requires late.id == op.parent && late.status == AckFailed && done.id == op.next && done.status == AckSent
    ensures var t := SyncAck(SyncAck(SyncRetry(s, op), late), done);
            t.queue.status == Failed && t.ledger.top.status == Sent
  {
    var r := SyncRetry(s, op);
    FencedStep(s, op, op.parent);
    LateFailureTaken(s, op, late);
    QueueSoundRetry(s.queue, op);
    QueueSoundStep(r.queue, late);
    var u := SyncAck(r, late);
    NoPartsAfterAck(r.ledger, r.queue, late);
    assert op.next in r.queue.bridgeIds + [late.id] && late.id in r.queue.bridgeIds + [late.id];
    SentTooLate(u.queue, u.ledger, op.parent, done);
  }

  /** For every plain reply: the bridge reports a failure, the reply is retried, a late failure of the retry
      parent arrives and then the new id is sent.  The ledger shows sent, the queue is failed for good. */
  lemma LateParentFailure(s: SendState, attached: seq<Owner>, a: Ack, op: RetryOp, late: Ack, done: Ack)
    requires Fresh(s, [], attached) && s.queue.details.None? && s.queue.bridgeIds == [op.parent]
    requires a.id == op.parent && a.status == AckFailed && op.parent in op.dead && Excluded(op.parent, op)
    requires late.id == op.parent && late.status == AckFailed && done.id == op.next && done.status == AckSent
    ensures var t := SyncAck(SyncAck(SyncRetry(SyncAck(s, a), op), late), done);
            t.queue.status == Failed && t.ledger.top.status == Sent
  {
    FreshInStep(s, [], attached);
    assert Local(s.queue) + RecordedStatuses([op.parent], s.queue.acks) == [Queued];
    FreshIsSound(s.queue);
    QueueSoundStep(s.queue, a);
    SingleFails(s.queue, a);
    SingleRequeued(SyncAck(s, a).queue, op);
    NoPartsAfterAck(s.ledger, s.queue, a);
    RetriedLate(SyncAck(s, a), op, late, done);
  }

  // ---------------------------------------------------------------- a sent item

  /** A preserved ack writes the item's note into the ledger part of its id.  If the note names another id
      that is retried next, the retry queues that part again, although the queue keeps its sent ack. */
  lemma PreservedThenRetried(q: QueueItem, l: LedgerSend, owners: seq<Owner>, attached: seq<Owner>, a: Ack, c: BridgeId,
                             op: RetryOp, i: nat)
    requires InStep(q, l, owners, attached, {}) && a.id in q.bridgeIds && ApplyAck(q, a).Preserved?
    requires c in q.bridgeIds && c in op.dead && q.note != "" && Mentions(q.note, c)
    requires a.id !in op.dead && a.id != op.next && i < |owners| && owners[i] == Some(a.id)
    ensures var l' := LedgerRetry(LedgerAfter(q, l, a), op);
            i < |PartsOf(l'.details)| && PartsOf(l'.details)[i].status == Queued
    ensures RecordedStatus(QueueRetry(q, op).acks, a.id) == Sent
  {
    QueueVerdict(q, owners, a);
    SentMeansAllRecorded(q, owners);
    LedgerAfterFields(q, l, owners, attached, {}, a);
    StepPreserved(q, l, owners, attached, {}, a);
    RetryLedgerFields(q, LedgerAfter(q, l, a), owners, attached, {}, op);
    var p := PartsOf(l.details)[i];
    assert Owned(p, q.bridgeIds, owners[i], q.status != Sent) && References(p, a.id);
    var p' := PartsOf(LedgerAfter(q, l, a).details)[i];
    assert p' == WithAck(p, Sent, q.note) && References(p', c) && ReferencesAny(p', op.dead);
    RetryFound(q, owners, op);
    RetryQueueFields(q, op);
  }

  lemma FirstSent(q: QueueItem, owners: seq<Owner>, b: BridgeId, c: BridgeId, a: Ack)
    requires QueueSide(q, owners) && q.acks == map[] && q.status == Queued && q.bridgeIds == [b, c]
    requires a.id == b && a.status == AckSent
    ensures var q' := QueueAfter(q, a);
            && ApplyAck(q, a).Updated? && QueueSide(q', owners)
            && q'.bridgeIds == [b, c] && RecordedStatus(q'.acks, b) == Sent
  {
    QueueVerdict(q, owners, a);
    StoredQueue(q, owners, a);
  }

  lemma FoldOfTwoSent(b: BridgeId, c: BridgeId, acks: map<BridgeId, AckRecord>)
    requires RecordedStatus(acks, b) == RecordedStatus(acks, c) == Sent
    ensures AggregateQueue([b, c], acks, []) == Sent
  {
    assert [] + RecordedStatuses([b, c], acks) == [Sent, Sent];
  }

  lemma SecondIsSent(q: QueueItem, b: BridgeId, c: BridgeId, a: Ack)
    requires QueueSide(q, [Some(b), Some(c)]) && q.bridgeIds == [b, c] && b != c && RecordedStatus(q.acks, b) == Sent
    requires a.id == c && a.status == AckSent
    ensures NextStatus(q, a) == Sent
  {
    NoLocal(PartsOf(q.details), [b, c], [Some(b), Some(c)]);
    NextStatusIsFold(q, a);
    FoldOfTwoSent(b, c, AcksWith(q.acks, a));
  }

  lemma SecondSent(q: QueueItem, b: BridgeId, c: BridgeId, owners: seq<Owner>, a: Ack)
    requires QueueSide(q, owners) && owners == [Some(b), Some(c)] && q.bridgeIds == [b, c] && b != c
    requires RecordedStatus(q.acks, b) == Sent && a.id == c && a.status == AckSent
    ensures ApplyAck(q, a).Updated? && QueueSide(QueueAfter(q, a), owners)
    ensures QueueAfter(q, a).status == Sent && QueueAfter(q, a).bridgeIds == [b, c]
  {
    SecondIsSent(q, b, c, a);
    QueueVerdict(q, owners, a);
    StoredQueue(q, owners, a);
    ItemFields(q, a);
  }

  lemma FailureIsPreserved(q: QueueItem, b: BridgeId, c: BridgeId, a: Ack)
    requires QueueSide(q, [Some(b), Some(c)]) && q.bridgeIds == [b, c]
    requires q.status == Sent && a.id == b && a.status == AckFailed
    ensures ApplyAck(q, a).Preserved?
  {
    NoLocal(PartsOf(q.details), [b, c], [Some(b), Some(c)]);
    StatusStep(q, [Some(b), Some(c)], a);
    FoldOfTwo(b, c, AcksWith(q.acks, a));
    QueueVerdict(q, [Some(b), Some(c)], a);
  }

  lemma StoredInStep(q: QueueItem, l: LedgerSend, owners: seq<Owner>, attached: seq<Owner>, a: Ack)
    requires InStep(q, l, owners, attached, {}) && Clean(a, q.bridgeIds) && ApplyAck(q, a).Updated?
    ensures InStep(QueueAfter(q, a), LedgerAfter(q, l, a), owners, attached, {})
  {
    StepStored(q, l, owners, attached, {}, a);
    assert {} - {a.id} == {};
  }

  /** For every reply of two bridged parts: both are sent, a late failure of the first is preserved, and the
      second is retried.  The queue keeps the sent ack of the first, the ledger shows its part as queued. */
  lemma SentRetrySplits(s: SendState, b: BridgeId, c: BridgeId, a1: Ack, a2: Ack, a3: Ack, op: RetryOp)
    requires TwoParts(s, b, c) && Clean(a1, [b, c]) && Clean(a2, [b, c])
    requires a1.id == a3.id == b && a2.id == c && a1.status == a2.status == AckSent && a3.status == AckFailed
    requires c in op.dead && b !in op.dead && b != op.next
    ensures var t := SyncRetry(SyncAck(SyncAck(SyncAck(s, a1), a2), a3), op);
            && RecordedStatus(t.queue.acks, b) == Sent
            && PartsOf(t.ledger.details) != [] && PartsOf(t.ledger.details)[0].status == Queued
  {
    var owners := [Some(b), Some(c)];
    FreshInStep(s, owners, []);
    FreshQueued(s.queue, b, c);
    FirstSent(s.queue, owners, b, c, a1);
    StoredInStep(s.queue, s.ledger, owners, [], a1);
    SplitFromSecond(SyncAck(s, a1), b, c, a2, a3, op);
  }

  lemma SplitFromSecond(s: SendState, b: BridgeId, c: BridgeId, a2: Ack, a3: Ack, op: RetryOp)
    requires InStep(s.queue, s.ledger, [Some(b), Some(c)], [], {}) && s.queue.bridgeIds == [b, c] && b != c
    requires RecordedStatus(s.queue.acks, b) == Sent && Clean(a2, [b, c])
    requires a3.id == b && a2.id == c && a2.status == AckSent && a3.status == AckFailed
    requires c in op.dead && b !in op.dead && b != op.next
    ensures var t := SyncRetry(SyncAck(SyncAck(s, a2), a3), op);
            && RecordedStatus(t.queue.acks, b) == Sent
            && PartsOf(t.ledger.details) != [] && PartsOf(t.ledger.details)[0].status == Queued
  {
    var owners := [Some(b), Some(c)];
    SecondSent(s.queue, b, c, owners, a2);
    StoredInStep(s.queue, s.ledger, owners, [], a2);
    NoteNamesAll(s.queue, a2, c);
    var u := SyncAck(s, a2);
    FailureIsPreserved(u.queue, b, c, a3);
    PreservedThenRetried(u.queue, u.ledger, owners, [], a3, c, op, 0);
  }
}
