/** A sent item has a completed task, over runs of acks, late acks and retries: exactly when no retry of a sent
    item keeps an id whose task record is worse than the queue's. */
module TaskRetries {
  import opened Wrappers
  import opened SendParts
  import opened QueueProjection
  import opened TaskProjection
  import opened SendSync
  import opened LockStep
  import opened LockStepRuns
  import opened DeliveryAgreement
  import opened DeliverySafety
  import opened RetryFencing
  import opened LateAcks
  import opened LockStepRetries
  import opened RetryOutcomes
  import opened FencedRuns

  // ---------------------------------------------------------------- the relation

  /** What the queue records as sent the task records as sent or accepted. */
  predicate RecordBacked(q: QueueItem, t: SendTask, b: BridgeId) {
    RecordedStatus(q.acks, b) == Sent ==> RecordedStatus(t.acks, b) in {Sent, Accepted}
  }

  /** Every id of the task is sent or accepted, every local part sent. */
  ghost predicate AllDone(t: SendTask) {
    && (forall b | b in t.bridgeIds :: RecordedStatus(t.acks, b) in {Sent, Accepted})
    && (forall s | LocalPart(t, s) :: s == Sent)
  }

  /** The task expects some of the item's ids, and its local statuses are among the item's. */
  ghost predicate PartOfReply(q: QueueItem, t: SendTask) {
    && t.bridgeIds != [] && (forall b | b in t.bridgeIds :: b in q.bridgeIds)
    && (forall s | LocalPart(t, s) :: s in Local(q))
  }

  /** A failed or accepted status has its reason in what the item records. */
  ghost predicate StatusBacked(q: QueueItem) {
    && (q.status == Failed ==> InFold(Failed, q.bridgeIds, q.acks, Local(q)))
    && (q.status == Accepted ==> !InFold(Queued, q.bridgeIds, q.acks, Local(q)))
  }

  ghost predicate TaskBacked(q: QueueItem, t: SendTask) {
    if q.status == Sent then t.status == TaskCompleted
    else (forall b | b in t.bridgeIds :: RecordBacked(q, t, b)) && (AllDone(t) ==> t.status == TaskCompleted)
  }

  ghost predicate Backed(q: QueueItem, t: SendTask) {
    && Deliverable(q) && StatusBacked(q)
    && TaskSound(t) && TerminalAcks(t.acks) && PartOfReply(q, t) && TaskBacked(q, t)
  }

  // ---------------------------------------------------------------- the task's side of an ack

  lemma DoneFold(ids: seq<BridgeId>, acks: map<BridgeId, AckRecord>, local: seq<Status>)
    requires ids != [] && (forall b | b in ids :: RecordedStatus(acks, b) in {Sent, Accepted})
    requires forall s | s in local :: s == Sent
    ensures AggregateQueue(ids, acks, local) in {Sent, Accepted}
  {
    FoldMembers(ids, acks, local);
    AggregateQueueIsMeet(ids, acks, local);
    var m := AggregateQueue(ids, acks, local);
    assert m in local + RecordedStatuses(ids, acks);
    assert InFold(m, ids, acks, local);
  }

  /** A task whose records are all good after an ack is completed by it. */
  lemma DoneCompletes(t: SendTask, a: Ack)
    requires TaskReferences(t, a.id) && AllDone(TaskAfter(t, a))
    ensures TaskAfter(t, a).status == TaskCompleted
  {
    var ids, acks := TaskExpectedIds(t, a), AcksWith(t.acks, a);
    TaskFields(t, a);
    assert a.id in t.bridgeIds + [a.id];
    assert a.id in ids;
    TaskLocalExact(t);
    LocalPartsStay(t, TaskAfter(t, a));
    DoneFold(ids, acks, TaskLocal(t));
    assert RecordedStatus(acks, a.id) == Mapped(a.status);
  }

  lemma TaskMembers(t: SendTask, a: Ack)
    requires TaskReferences(t, a.id)
    ensures forall b :: b in TaskAfter(t, a).bridgeIds <==> b in t.bridgeIds || b == a.id
    ensures SameLocalParts(t, TaskAfter(t, a)) && TaskAfter(t, a).acks == AcksWith(t.acks, a)
  {
    TaskFields(t, a);
  }

  // ---------------------------------------------------------------- the queue's side of an ack

  /** An ack for an id that the item expects, or for one that neither its parts nor the task know. */
  ghost predicate KnownOrStrange(q: QueueItem, t: SendTask, a: Ack) {
    a.id in q.bridgeIds || (Unused(PartsOf(q.details), a.id) && !TaskReferences(t, a.id))
  }

  /** An unreferenced part stays one, and what becomes one shows the ack. */
  lemma LocalAfterAck(ps: seq<Part>, ids: seq<BridgeId>, a: Ack)
    requires a.id in ids
    ensures var ps' := AckParts(ps, a.id, Mapped(a.status), a.reason);
            && (forall s | s in LocalStatuses(ps, ids) :: s in LocalStatuses(ps', ids))
            && (forall s | s in LocalStatuses(ps', ids) :: s in LocalStatuses(ps, ids) || s == Mapped(a.status))
  {
    var ps' := AckParts(ps, a.id, Mapped(a.status), a.reason);
    LocalStatusesExact(ps, ids);
    LocalStatusesExact(ps', ids);
    forall i | 0 <= i < |ps| && !ReferencesSome(ps[i], ids) ensures ps'[i] == ps[i] {
      assert !References(ps[i], a.id);
    }
    forall s | s in LocalStatuses(ps, ids) ensures s in LocalStatuses(ps', ids) {
      var i :| 0 <= i < |ps| && !ReferencesSome(ps[i], ids) && ps[i].status == s;
      assert !ReferencesSome(ps'[i], ids) && ps'[i].status == s;
    }
    forall s | s in LocalStatuses(ps', ids) ensures s in LocalStatuses(ps, ids) || s == Mapped(a.status) {
      var i :| 0 <= i < |ps'| && !ReferencesSome(ps'[i], ids) && ps'[i].status == s;
      if References(ps[i], a.id) { assert ps'[i].status == Mapped(a.status); } else { assert ps'[i] == ps[i]; }
    }
  }

  lemma SameIdsSameLocal(ps: seq<Part>, ids: seq<BridgeId>, ids': seq<BridgeId>)
    requires forall b :: b in ids <==> b in ids'
    ensures LocalStatuses(ps, ids) == LocalStatuses(ps, ids')
  {
    LocalStatusesStable(ps, ids, ps, ids');
  }

  /** The local statuses among which the queue folds a known or strange ack are the item's own. */
  lemma LocalOfExpected(q: QueueItem, a: Ack)
    requires a.id in q.bridgeIds || Unused(PartsOf(q.details), a.id)
    ensures LocalStatuses(PartsOf(q.details), ExpectedIds(q, a)) == Local(q)
  {
    var ids := q.bridgeIds + [a.id];
    if a.id in q.bridgeIds {
      SameIdsSameLocal(PartsOf(q.details), q.bridgeIds, ExpectedIds(q, a));
    } else {
      SameLocalStatuses(PartsOf(q.details), q.bridgeIds, a.id);
      SameIdsSameLocal(PartsOf(q.details), ids, ExpectedIds(q, a));
    }
  }

  /** What storing an ack does to ids, records and local statuses. */
  lemma StoredFields(q: QueueItem, a: Ack)
    requires (a.id in q.bridgeIds || Unused(PartsOf(q.details), a.id)) && ApplyAck(q, a).Updated?
    ensures var q' := QueueAfter(q, a);
            && (forall b :: b in q'.bridgeIds <==> b in q.bridgeIds || b == a.id) && q'.acks == AcksWith(q.acks, a)
            && (forall s | s in Local(q) :: s in Local(q'))
            && (forall s | s in Local(q') :: s in Local(q) || s == Mapped(a.status))
            && q'.status == NextStatus(q, a)
  {
    var ids := ExpectedIds(q, a);
    UpdatedFields(q, a);
    LocalOfExpected(q, a);
    LocalAfterAck(PartsOf(q.details), ids, a);
  }

  lemma NextInFold(q: QueueItem, a: Ack)
    requires Deliverable(q) && (a.id in q.bridgeIds || Unused(PartsOf(q.details), a.id))
    ensures var ids, acks := ExpectedIds(q, a), AcksWith(q.acks, a);
            && (NextStatus(q, a) == Failed <==> InFold(Failed, ids, acks, Local(q)))
            && (NextStatus(q, a) == Accepted ==> !InFold(Queued, ids, acks, Local(q)))
            && (NextStatus(q, a) == Queued ==> InFold(Queued, ids, acks, Local(q)))
  {
    var ids := ExpectedIds(q, a);
    LocalOfExpected(q, a);
    assert a.id in q.bridgeIds + [a.id];
    LocalStatusesExact(PartsOf(q.details), q.bridgeIds);
    FoldOfNext(ids, q.acks, Local(q), a);
  }

  lemma FoldOfNext(ids: seq<BridgeId>, acks: map<BridgeId, AckRecord>, local: seq<Status>, a: Ack)
    requires a.id in ids && TerminalAcks(acks) && forall s | s in local :: Delivery(s)
    ensures var acks' := AcksWith(acks, a);
            var next := if |ids| > 1 || local != [] then AggregateQueue(ids, acks', local) else Mapped(a.status);
            && (next == Failed <==> InFold(Failed, ids, acks', local))
            && (next == Accepted ==> !InFold(Queued, ids, acks', local))
            && (next == Queued ==> InFold(Queued, ids, acks', local))
  {
    if |ids| > 1 || local != [] {
      FoldInFold(ids, AcksWith(acks, a), local);
    } else {
      assert ids == [a.id];
      assert RecordedStatus(AcksWith(acks, a), a.id) == Mapped(a.status);
    }
  }

  lemma FoldInFold(ids: seq<BridgeId>, acks: map<BridgeId, AckRecord>, local: seq<Status>)
    requires ids != [] && TerminalAcks(acks) && forall s | s in local :: Delivery(s)
    ensures var m := AggregateQueue(ids, acks, local);
            && (m == Failed <==> InFold(Failed, ids, acks, local)) && InFold(m, ids, acks, local)
            && (m == Accepted ==> !InFold(Queued, ids, acks, local))
  {
    FoldMembers(ids, acks, local);
    AggregateQueueIsMeet(ids, acks, local);
  }

  // ---------------------------------------------------------------- one ack

  /** The queue refuses a known ack only for an id that it recorded as failed. */
  lemma RefusedWasFailed(q: QueueItem, a: Ack)
    requires Deliverable(q) && StatusBacked(q) && a.id in q.bridgeIds && ApplyAck(q, a).Refused?
    ensures q.status != Sent && RecordedStatus(q.acks, a.id) == Failed
  {
    var ids, acks := ExpectedIds(q, a), AcksWith(q.acks, a);
    NextIsDelivery(q, a);
    AllowedOnDelivery(q.status, NextStatus(q, a));
    NextInFold(q, a);
    forall b | b in q.bridgeIds
      ensures b in ids && (b != a.id ==> RecordedStatus(acks, b) == RecordedStatus(q.acks, b))
    {
      assert b in q.bridgeIds + [a.id];
    }
    assert RecordedStatus(acks, a.id) == Mapped(a.status);
  }

  lemma StatusBackedStep(q: QueueItem, a: Ack)
    requires Deliverable(q) && (a.id in q.bridgeIds || Unused(PartsOf(q.details), a.id)) && ApplyAck(q, a).Updated?
    ensures StatusBacked(QueueAfter(q, a))
  {
    StoredFields(q, a);
    UpdatedFields(q, a);
    NextInFold(q, a);
  }

  lemma PartOfReplyStep(q: QueueItem, t: SendTask, a: Ack)
    requires PartOfReply(q, t) && KnownOrStrange(q, t, a)
    ensures PartOfReply(QueueAfter(q, a), TaskAfter(t, TaskAck(q, a)))
  {
    var seen := TaskAck(q, a);
    if TaskReferences(t, a.id) {
      TaskMembers(t, seen);
      LocalPartsStay(t, TaskAfter(t, seen));
    }
    if ApplyAck(q, a).Updated? { StoredFields(q, a); } else { NotUpdated(q, a); }
    if TaskReferences(t, a.id) { assert a.id in TaskAfter(t, seen).bridgeIds; }
  }

  /** When the next status is sent, the task records nothing worse but for the ack's own id. */
  lemma GoodBeforeSent(q: QueueItem, t: SendTask, a: Ack)
    requires Backed(q, t) && q.status != Sent && NextStatus(q, a) == Sent
    requires a.id in q.bridgeIds || Unused(PartsOf(q.details), a.id)
    ensures a.status == AckSent && forall s | LocalPart(t, s) :: s == Sent
    ensures forall b | b in t.bridgeIds && b != a.id :: RecordedStatus(t.acks, b) in {Sent, Accepted}
  {
    NextSent(q, a);
    LocalOfExpected(q, a);
    forall b | b in t.bridgeIds && b != a.id ensures RecordedStatus(t.acks, b) in {Sent, Accepted} {
      assert b in q.bridgeIds + [a.id];
      assert b in ExpectedIds(q, a) && RecordBacked(q, t, b);
    }
  }

  lemma CompletedByLast(t: SendTask, seen: Ack)
    requires TaskReferences(t, seen.id) && seen.status == AckSent && forall s | LocalPart(t, s) :: s == Sent
    requires forall b | b in t.bridgeIds && b != seen.id :: RecordedStatus(t.acks, b) in {Sent, Accepted}
    ensures TaskAfter(t, seen).status == TaskCompleted
  {
    var t' := TaskAfter(t, seen);
    TaskMembers(t, seen);
    LocalPartsStay(t, t');
    forall b | b in t'.bridgeIds ensures RecordedStatus(t'.acks, b) in {Sent, Accepted} {
      if b == seen.id { assert t'.acks[b].status == Sent; }
    }
    DoneCompletes(t, seen);
  }

  /** The item becomes sent with this ack. */
  lemma CompletedWithSent(q: QueueItem, t: SendTask, a: Ack, seen: Ack)
    requires Backed(q, t) && KnownOrStrange(q, t, a) && ApplyAck(q, a).Updated? && q.status != Sent
    requires NextStatus(q, a) == Sent && seen.id == a.id && seen.status == a.status
    ensures TaskAfter(t, seen).status == TaskCompleted
  {
    GoodBeforeSent(q, t, a);
    if TaskReferences(t, a.id) { CompletedByLast(t, seen); } else { assert AllDone(t); }
  }

  /** Item and task record the ack alike, or the item keeps a failure. */
  lemma RecordStaysBacked(q: QueueItem, q': QueueItem, t: SendTask, t': SendTask, seen: Ack, b: BridgeId)
    requires t'.acks == t.acks || t'.acks == AcksWith(t.acks, seen)
    requires b != seen.id ==> RecordBacked(q, t, b) && RecordedStatus(q'.acks, b) == RecordedStatus(q.acks, b)
    requires b == seen.id ==> t'.acks == AcksWith(t.acks, seen)
    requires b == seen.id ==> RecordedStatus(q'.acks, b) in {Mapped(seen.status), Failed}
    ensures RecordBacked(q', t', b)
  {
  }

  /** The item is not sent before or after. */
  lemma RecordsStayBacked(q: QueueItem, q': QueueItem, t: SendTask, a: Ack, seen: Ack)
    requires Backed(q, t) && q.status != Sent && seen.id == a.id && seen.status == a.status
    requires || q'.acks == AcksWith(q.acks, a)
             || (q'.acks == q.acks && (TaskReferences(t, a.id) ==> RecordedStatus(q.acks, a.id) == Failed))
    ensures forall b | b in TaskAfter(t, seen).bridgeIds :: RecordBacked(q', TaskAfter(t, seen), b)
    ensures AllDone(TaskAfter(t, seen)) ==> TaskAfter(t, seen).status == TaskCompleted
  {
    var t' := TaskAfter(t, seen);
    if TaskReferences(t, a.id) {
      TaskMembers(t, seen);
      if AllDone(t') { DoneCompletes(t, seen); }
    }
    forall b | b in t'.bridgeIds ensures RecordBacked(q', t', b) { RecordStaysBacked(q, q', t, t', seen, b); }
  }

  lemma TaskBackedStep(q: QueueItem, t: SendTask, a: Ack)
    requires Backed(q, t) && KnownOrStrange(q, t, a)
    ensures TaskBacked(QueueAfter(q, a), TaskAfter(t, TaskAck(q, a)))
  {
    var seen := TaskAck(q, a);
    TaskSoundStep(t, seen);
    if ApplyAck(q, a).Updated? {
      UpdatedFields(q, a);
      if q.status != Sent && NextStatus(q, a) == Sent { CompletedWithSent(q, t, a, seen); }
      if q.status != Sent { RecordsStayBacked(q, QueueAfter(q, a), t, a, seen); }
    } else {
      NotUpdated(q, a);
      if q.status != Sent {
        if a.id in q.bridgeIds { KnownNotStored(q, a); }
        RecordsStayBacked(q, q, t, a, seen);
      }
    }
  }

  lemma KnownNotStored(q: QueueItem, a: Ack)
    requires Deliverable(q) && StatusBacked(q) && a.id in q.bridgeIds && q.status != Sent && !ApplyAck(q, a).Updated?
    ensures RecordedStatus(q.acks, a.id) == Failed
  {
    Outcome(q, a);
    RefusedWasFailed(q, a);
  }

  lemma TerminalStep(t: SendTask, a: Ack)
    requires TerminalAcks(t.acks)
    ensures TerminalAcks(TaskAfter(t, a).acks)
  {
  }

  /** One ack keeps the relation. */
  lemma BackedAck(q: QueueItem, t: SendTask, a: Ack)
    requires Backed(q, t) && KnownOrStrange(q, t, a)
    ensures Backed(QueueAfter(q, a), TaskAfter(t, TaskAck(q, a)))
  {
    var seen := TaskAck(q, a);
    DeliverableAck(q, a);
    if ApplyAck(q, a).Updated? { StatusBackedStep(q, a); } else { NotUpdated(q, a); }
    TaskSoundStep(t, seen);
    TerminalStep(t, seen);
    PartOfReplyStep(q, t, a);
    TaskBackedStep(q, t, a);
  }

  // ---------------------------------------------------------------- one retry

  /** The retry supersedes an id that the task expects, its candidates are known to no local part, and its
      reason names the new id. */
  ghost predicate ProperRetry(q: QueueItem, t: SendTask, op: RetryOp) {
    && (exists d | d in t.bridgeIds :: d in op.dead)
    && ForeignUnused(PartsOf(q.details), q.bridgeIds, op) && Mentions(op.reason, op.next)
  }

  /** For no id that is kept the task records worse than sent while the queue records sent. */
  ghost predicate GoodTaskRetry(q: QueueItem, t: SendTask, op: RetryOp) {
    forall b | b in t.bridgeIds && b !in op.dead && b != op.next :: RecordBacked(q, t, b)
  }

  lemma RetriedMember(ids: seq<BridgeId>, op: RetryOp, b: BridgeId)
    requires exists d | d in ids :: d in op.dead
    ensures b in ReplaceIds(ids, op.dead, op.next) <==> b == op.next || (b in ids && b !in op.dead)
    ensures b in RetryIds(ids, op.dead, op.next) <==> b == op.next || (b in ids && b !in op.dead)
  {
    if b != op.next { ReplacedMembers(ids, op.dead, op.next, b); }
    var d :| d in ids && d in op.dead;
    var i :| 0 <= i < |ids| && ids[i] == d;
    assert ReplaceAll(ids, op.dead, op.next)[i] == op.next;
  }

  lemma LocalKeptByRetry(ps: seq<Part>, ids: seq<BridgeId>, op: RetryOp)
    requires ForeignUnused(ps, ids, op) && exists d | d in ids :: d in op.dead
    ensures var ps', ids' := RetryParts(ps, op.dead, op.next, op.reason), RetryIds(ids, op.dead, op.next);
            forall s | s in LocalStatuses(ps, ids) :: s in LocalStatuses(ps', ids')
  {
    var ps', ids' := RetryParts(ps, op.dead, op.next, op.reason), RetryIds(ids, op.dead, op.next);
    LocalStatusesExact(ps, ids);
    LocalStatusesExact(ps', ids');
    forall s | s in LocalStatuses(ps, ids) ensures s in LocalStatuses(ps', ids') {
      var i :| 0 <= i < |ps| && !ReferencesSome(ps[i], ids) && ps[i].status == s;
      forall d | d in op.dead ensures !References(ps[i], d) { assert Candidate(op, d); }
      assert ps'[i] == ps[i];
      forall b | b in ids' ensures !References(ps'[i], b) {
        RetriedMember(ids, op, b);
        assert b == op.next ==> Candidate(op, b);
      }
    }
  }

  lemma RetryFinds(q: QueueItem, t: SendTask, op: RetryOp)
    requires Backed(q, t) && ProperRetry(q, t, op)
    ensures QueueReferencesAny(q, op.dead) && q.status != Rejected && TaskReferencesAny(t, op.dead)
    ensures exists d | d in q.bridgeIds :: d in op.dead
  {
    var d :| d in t.bridgeIds && d in op.dead;
    assert d in q.bridgeIds;
    assert QueueReferences(q, d) && TaskReferences(t, d);
  }

  lemma RetriedTaskFields(t: SendTask, op: RetryOp)
    requires TaskReferencesAny(t, op.dead) && exists d | d in t.bridgeIds :: d in op.dead
    ensures var t' := TaskRetry(t, op);
            && t'.bridgeIds == ReplaceIds(t.bridgeIds, op.dead, op.next) && t'.acks == KeepAcks(t.acks, op)
            && t'.status == TaskQueued && SameLocalParts(t, t')
  {
    RetriedMember(t.bridgeIds, op, op.next);
  }

  /** What a proper retry does to item and task. */
  lemma RetriedFields(q: QueueItem, t: SendTask, op: RetryOp)
    requires Backed(q, t) && ProperRetry(q, t, op)
    ensures var q', t' := QueueRetry(q, op), TaskRetry(t, op);
            && q'.bridgeIds == RetryIds(q.bridgeIds, op.dead, op.next) && q'.acks == KeepAcks(q.acks, op)
            && q'.status == AggregateRequeued(q'.bridgeIds, q'.acks) && q'.status in {Queued, Failed}
            && PartsOf(q'.details) == RetryParts(PartsOf(q.details), op.dead, op.next, op.reason)
            && t'.bridgeIds == ReplaceIds(t.bridgeIds, op.dead, op.next) && t'.acks == KeepAcks(t.acks, op)
            && t'.status == TaskQueued && SameLocalParts(t, t')
    ensures exists d | d in q.bridgeIds :: d in op.dead
  {
    RetryFinds(q, t, op);
    RetryQueueFields(q, op);
    RetriedTaskFields(t, op);
    var ids := RetryIds(q.bridgeIds, op.dead, op.next);
    RetriedMember(q.bridgeIds, op, op.next);
    RequeuedIsFold(ids, KeepAcks(q.acks, op), [], op.next);
  }

  lemma RetriedPartOfReply(q: QueueItem, t: SendTask, op: RetryOp)
    requires Backed(q, t) && ProperRetry(q, t, op)
    ensures PartOfReply(QueueRetry(q, op), TaskRetry(t, op))
  {
    RetriedFields(q, t, op);
    LocalPartsStay(t, TaskRetry(t, op));
    LocalKeptByRetry(PartsOf(q.details), q.bridgeIds, op);
    RetriedMember(t.bridgeIds, op, op.next);
    forall b | b in TaskRetry(t, op).bridgeIds ensures b in QueueRetry(q, op).bridgeIds {
      RetriedMember(t.bridgeIds, op, b);
      RetriedMember(q.bridgeIds, op, b);
    }
  }

  lemma RetriedStatusBacked(q: QueueItem, t: SendTask, op: RetryOp)
    requires Backed(q, t) && ProperRetry(q, t, op)
    ensures StatusBacked(QueueRetry(q, op))
  {
    var q' := QueueRetry(q, op);
    RetriedFields(q, t, op);
    FoldMembers(q'.bridgeIds, q'.acks, []);
    assert [] + RecordedStatuses(q'.bridgeIds, q'.acks) == RecordedStatuses(q'.bridgeIds, q'.acks);
    if q'.status == Failed { assert InFold(Failed, q'.bridgeIds, q'.acks, []); }
  }

  lemma RetriedRecords(q: QueueItem, q': QueueItem, t: SendTask, t': SendTask, op: RetryOp)
    requires q'.acks == KeepAcks(q.acks, op) && t'.acks == KeepAcks(t.acks, op)
    requires t'.bridgeIds == ReplaceIds(t.bridgeIds, op.dead, op.next) && exists d | d in t.bridgeIds :: d in op.dead
    ensures op.next in t'.bridgeIds && RecordedStatus(t'.acks, op.next) == Queued
    ensures (forall b | b in t'.bridgeIds :: RecordBacked(q', t', b)) <==> GoodTaskRetry(q, t, op)
  {
    RetriedMember(t.bridgeIds, op, op.next);
    forall b | b != op.next && b in t.bridgeIds && b !in op.dead
      ensures b in t'.bridgeIds && (RecordBacked(q', t', b) <==> RecordBacked(q, t, b))
    {
      RetriedMember(t.bridgeIds, op, b);
    }
    forall b | b in t'.bridgeIds && b != op.next ensures b in t.bridgeIds && b !in op.dead {
      RetriedMember(t.bridgeIds, op, b);
    }
  }

  lemma RetriedTaskBacked(q: QueueItem, t: SendTask, op: RetryOp)
    requires Backed(q, t) && ProperRetry(q, t, op)
    ensures TaskBacked(QueueRetry(q, op), TaskRetry(t, op)) <==> GoodTaskRetry(q, t, op)
  {
    RetriedFields(q, t, op);
    RetriedRecords(q, QueueRetry(q, op), t, TaskRetry(t, op), op);
    assert !AllDone(TaskRetry(t, op));
  }

  /** One retry keeps the relation if and only if it keeps no id that the task records worse. */
  lemma BackedRetry(q: QueueItem, t: SendTask, op: RetryOp)
    requires Backed(q, t) && ProperRetry(q, t, op)
    ensures Backed(QueueRetry(q, op), TaskRetry(t, op)) <==> GoodTaskRetry(q, t, op)
    ensures q.status != Sent ==> GoodTaskRetry(q, t, op)
  {
    RetriedFields(q, t, op);
    QueueSoundRetry(q, op);
    RetriedStatusBacked(q, t, op);
    TaskSoundRetry(t, op);
    RetriedPartOfReply(q, t, op);
    RetriedTaskBacked(q, t, op);
  }

  // ---------------------------------------------------------------- a worse record shows

  lemma LocalAfterSentRetry(q: QueueItem, op: RetryOp)
    requires QueueSound(q) && q.status == Sent && Mentions(op.reason, op.next)
    requires exists d | d in q.bridgeIds :: d in op.dead
    ensures var ps' := RetryParts(PartsOf(q.details), op.dead, op.next, op.reason);
            var ids' := RetryIds(q.bridgeIds, op.dead, op.next);
            forall s | s in LocalStatuses(ps', ids') :: s == Sent
  {
    var ps, ids := PartsOf(q.details), q.bridgeIds;
    var ps', ids' := RetryParts(ps, op.dead, op.next, op.reason), RetryIds(ids, op.dead, op.next);
    LocalStatusesExact(ps', ids');
    forall s | s in LocalStatuses(ps', ids') ensures s == Sent {
      var i :| 0 <= i < |ps'| && !ReferencesSome(ps'[i], ids') && ps'[i].status == s;
      RetriedMember(ids, op, op.next);
      assert !References(ps'[i], op.next);
      assert ps'[i] == ps[i];
      forall b | b in ids ensures !References(ps[i], b) { RetriedMember(ids, op, b); }
    }
  }

  /** A sent item is retried and the new id is sent: the item is sent again. */
  lemma SentAgain(q: QueueItem, t: SendTask, op: RetryOp, a: Ack)
    requires Backed(q, t) && ProperRetry(q, t, op) && q.status == Sent && a.id == op.next && a.status == AckSent
    ensures QueueAfter(QueueRetry(q, op), a).status == Sent
  {
    var q' := QueueRetry(q, op);
    RetriedFields(q, t, op);
    LocalAfterSentRetry(q, op);
    RetriedMember(q.bridgeIds, op, op.next);
    forall b | b in q'.bridgeIds ensures RecordedStatus(AcksWith(q'.acks, a), b) == Sent {
      RetriedMember(q.bridgeIds, op, b);
    }
    SentByLast(q', a);
  }

  lemma NextSentByLast(q: QueueItem, a: Ack)
    requires a.id in q.bridgeIds && a.status == AckSent
    requires forall b | b in q.bridgeIds :: RecordedStatus(AcksWith(q.acks, a), b) == Sent
    requires forall s | s in Local(q) :: s == Sent
    ensures NextStatus(q, a) == Sent
  {
    var ids := ExpectedIds(q, a);
    LocalOfExpected(q, a);
    forall b | b in ids ensures b in q.bridgeIds { assert b in q.bridgeIds + [a.id]; }
    assert a.id in q.bridgeIds + [a.id];
    assert a.id in ids;
    AllSentFold(ids, AcksWith(q.acks, a), Local(q));
  }

  lemma SentByLast(q: QueueItem, a: Ack)
    requires a.id in q.bridgeIds && a.status == AckSent && q.status in {Queued, Failed}
    requires forall b | b in q.bridgeIds :: RecordedStatus(AcksWith(q.acks, a), b) == Sent
    requires forall s | s in Local(q) :: s == Sent
    ensures QueueAfter(q, a).status == Sent
  {
    NextSentByLast(q, a);
    Outcome(q, a);
    ItemFields(q, a);
  }

  lemma FailedByKept(t: SendTask, a: Ack, b: BridgeId)
    requires a.id in t.bridgeIds && b in t.bridgeIds && a.id != b
    requires RecordedStatus(t.acks, b) == Failed && t.status == TaskQueued
    ensures TaskAfter(t, a).status == TaskFailed
  {
    var ids, acks := TaskExpectedIds(t, a), AcksWith(t.acks, a);
    assert b in t.bridgeIds + [a.id] && a.id in t.bridgeIds + [a.id];
    assert b in ids && a.id in ids;
    TwoMembers(ids, b, a.id);
    assert TaskReferences(t, a.id);
    TaskFields(t, a);
    FoldMembers(ids, acks, TaskLocal(t));
    assert InFold(RecordedStatus(acks, b), ids, acks, TaskLocal(t));
  }

  /** A retry of a sent item that keeps an id with a worse task record: when the new id is sent, the item is
      sent and the task failed. */
  lemma WorseRecordShows(q: QueueItem, t: SendTask, op: RetryOp, a: Ack)
    requires Backed(q, t) && ProperRetry(q, t, op) && !GoodTaskRetry(q, t, op) && a.id == op.next && a.status == AckSent
    ensures var q', t' := QueueRetry(q, op), TaskRetry(t, op);
            QueueAfter(q', a).status == Sent && TaskAfter(t', TaskAck(q', a)).status == TaskFailed
  {
    BackedRetry(q, t, op);
    RetriedFields(q, t, op);
    SentAgain(q, t, op, a);
    var b :| b in t.bridgeIds && b !in op.dead && b != op.next && !RecordBacked(q, t, b);
    RetriedMember(t.bridgeIds, op, b);
    RetriedMember(t.bridgeIds, op, op.next);
    FailedByKept(TaskRetry(t, op), TaskAck(QueueRetry(q, op), a), b);
  }

  // ---------------------------------------------------------------- runs

  ghost predicate ProperFor(s: SendState, i: nat, e: Event)
    requires i < |s.tasks|
  {
    match e
    case OnAck(a) => KnownOrStrange(s.queue, s.tasks[i], a)
    case OnRetry(op) => ProperRetry(s.queue, s.tasks[i], op)
  }

  ghost predicate GoodFor(s: SendState, i: nat, e: Event)
    requires i < |s.tasks|
  {
    e.OnRetry? ==> GoodTaskRetry(s.queue, s.tasks[i], e.op)
  }

  ghost predicate BackedIn(s: SendState, i: nat)
    requires i < |s.tasks|
  {
    Backed(s.queue, s.tasks[i])
  }

  lemma BackedEvent(s: SendState, i: nat, e: Event)
    requires i < |s.tasks| && BackedIn(s, i) && ProperFor(s, i, e)
    ensures BackedIn(After(s, e), i) <==> GoodFor(s, i, e)
  {
    match e
    case OnAck(a) => BackedAck(s.queue, s.tasks[i], a);
    case OnRetry(op) => BackedRetry(s.queue, s.tasks[i], op);
  }

  predicate SentDone(s: SendState, i: nat)
    requires i < |s.tasks|
  {
    s.queue.status == Sent ==> s.tasks[i].status == TaskCompleted
  }

  /** A sent item has a completed task, now and after whatever ack comes next. */
  ghost predicate Completes(s: SendState, i: nat)
    requires i < |s.tasks|
  {
    SentDone(s, i) && forall a: Ack | a.id in s.queue.bridgeIds :: SentDone(SyncAck(s, a), i)
  }

  lemma BackedCompletes(s: SendState, i: nat)
    requires i < |s.tasks| && BackedIn(s, i)
    ensures Completes(s, i)
  {
    forall a: Ack | a.id in s.queue.bridgeIds ensures SentDone(SyncAck(s, a), i) { BackedAck(s.queue, s.tasks[i], a); }
  }

  lemma BadRetryShows(s: SendState, i: nat, e: Event)
    requires i < |s.tasks| && BackedIn(s, i) && ProperFor(s, i, e) && !GoodFor(s, i, e)
    ensures !Completes(After(s, e), i)
  {
    var r, a := After(s, e), Ack(e.op.next, AckSent, "");
    WorseRecordShows(s.queue, s.tasks[i], e.op, a);
    RetriedFields(s.queue, s.tasks[i], e.op);
    RetriedMember(s.queue.bridgeIds, e.op, e.op.next);
    assert a.id in r.queue.bridgeIds && !SentDone(SyncAck(r, a), i);
  }

  ghost predicate ProperForAt(s: SendState, i: nat, events: seq<Event>, k: nat)
    requires i < |s.tasks| && k < |events|
  {
    ProperFor(RunEvents(s, events[..k]), i, events[k])
  }

  ghost predicate GoodForAt(s: SendState, i: nat, events: seq<Event>, k: nat)
    requires i < |s.tasks| && k < |events|
  {
    GoodFor(RunEvents(s, events[..k]), i, events[k])
  }

  ghost predicate BackedAt(s: SendState, i: nat, events: seq<Event>, k: nat)
    requires i < |s.tasks| && k <= |events|
  {
    BackedIn(RunEvents(s, events[..k]), i)
  }

  ghost predicate CompletesAt(s: SendState, i: nat, events: seq<Event>, k: nat)
    requires i < |s.tasks| && k <= |events|
  {
    Completes(RunEvents(s, events[..k]), i)
  }

  lemma NextRun(s: SendState, events: seq<Event>, k: nat)
    requires k < |events|
    ensures RunEvents(s, events[..k + 1]) == After(RunEvents(s, events[..k]), events[k])
  {
    assert events[..k + 1][..k] == events[..k];
  }

  lemma BackedNext(s: SendState, i: nat, events: seq<Event>, k: nat)
    requires i < |s.tasks| && k < |events| && BackedAt(s, i, events, k) && ProperForAt(s, i, events, k)
    ensures BackedAt(s, i, events, k + 1) <==> GoodForAt(s, i, events, k)
    ensures CompletesAt(s, i, events, k + 1) ==> GoodForAt(s, i, events, k)
  {
    NextRun(s, events, k);
    var u := RunEvents(s, events[..k]);
    BackedEvent(u, i, events[k]);
    if !GoodFor(u, i, events[k]) { BadRetryShows(u, i, events[k]); }
  }

  lemma BackedShows(s: SendState, i: nat, events: seq<Event>, k: nat)
    requires i < |s.tasks| && k <= |events| && BackedAt(s, i, events, k)
    ensures CompletesAt(s, i, events, k)
  {
    BackedCompletes(RunEvents(s, events[..k]), i);
  }

  lemma BackedAtStart(s: SendState, i: nat, events: seq<Event>)
    requires i < |s.tasks| && BackedIn(s, i)
    ensures BackedAt(s, i, events, 0)
  {
    assert events[..0] == [];
  }

  ghost predicate ProperUpTo(s: SendState, i: nat, events: seq<Event>, k: nat)
    requires i < |s.tasks| && k <= |events|
  {
    forall j | 0 <= j < k :: ProperForAt(s, i, events, j)
  }

  ghost predicate GoodUpTo(s: SendState, i: nat, events: seq<Event>, k: nat)
    requires i < |s.tasks| && k <= |events|
  {
    forall j | 0 <= j < k :: GoodForAt(s, i, events, j)
  }

  ghost predicate CompleteUpTo(s: SendState, i: nat, events: seq<Event>, k: nat)
    requires i < |s.tasks| && k <= |events|
  {
    forall j | 0 <= j <= k :: CompletesAt(s, i, events, j)
  }

  lemma ProperBefore(s: SendState, i: nat, events: seq<Event>, k: nat)
    requires i < |s.tasks| && k < |events| && ProperUpTo(s, i, events, k + 1)
    ensures ProperUpTo(s, i, events, k) && ProperForAt(s, i, events, k)
  {
  }

  lemma GoodBefore(s: SendState, i: nat, events: seq<Event>, k: nat)
    requires i < |s.tasks| && k < |events|
    ensures GoodUpTo(s, i, events, k + 1) <==> GoodUpTo(s, i, events, k) && GoodForAt(s, i, events, k)
  {
  }

  lemma CompleteBefore(s: SendState, i: nat, events: seq<Event>, k: nat)
    requires i < |s.tasks| && k < |events| && CompleteUpTo(s, i, events, k + 1)
    ensures CompleteUpTo(s, i, events, k) && CompletesAt(s, i, events, k + 1)
  {
  }

  lemma {:induction false} BackedWhileGood(s: SendState, i: nat, events: seq<Event>, k: nat)
    requires i < |s.tasks| && k <= |events| && BackedIn(s, i)
    requires ProperUpTo(s, i, events, k) && GoodUpTo(s, i, events, k)
    ensures BackedAt(s, i, events, k)
  {
    if k == 0 {
      BackedAtStart(s, i, events);
    } else {
      ProperBefore(s, i, events, k - 1);
      GoodBefore(s, i, events, k - 1);
      BackedWhileGood(s, i, events, k - 1);
      BackedNext(s, i, events, k - 1);
    }
  }

  lemma {:induction false} GoodWhileComplete(s: SendState, i: nat, events: seq<Event>, k: nat)
    requires i < |s.tasks| && k <= |events| && BackedIn(s, i)
    requires ProperUpTo(s, i, events, k) && CompleteUpTo(s, i, events, k)
    ensures GoodUpTo(s, i, events, k)
  {
    if k > 0 {
      ProperBefore(s, i, events, k - 1);
      CompleteBefore(s, i, events, k - 1);
      GoodWhileComplete(s, i, events, k - 1);
      BackedWhileGood(s, i, events, k - 1);
      BackedNext(s, i, events, k - 1);
      GoodBefore(s, i, events, k - 1);
    }
  }

  lemma CompleteWhileGood(s: SendState, i: nat, events: seq<Event>)
    requires i < |s.tasks| && BackedIn(s, i)
    requires ProperUpTo(s, i, events, |events|) && GoodUpTo(s, i, events, |events|)
    ensures CompleteUpTo(s, i, events, |events|)
  {
    forall k | 0 <= k <= |events| ensures CompletesAt(s, i, events, k) {
      PrefixUpTo(s, i, events, k);
      BackedWhileGood(s, i, events, k);
      BackedShows(s, i, events, k);
    }
  }

  lemma PrefixUpTo(s: SendState, i: nat, events: seq<Event>, k: nat)
    requires i < |s.tasks| && k <= |events|
    requires ProperUpTo(s, i, events, |events|) && GoodUpTo(s, i, events, |events|)
    ensures ProperUpTo(s, i, events, k) && GoodUpTo(s, i, events, k)
  {
  }

  /** Over every run of acks, late acks and retries from a fresh reply: a sent item has a completed task
      throughout, whatever ack comes next, if and only if no retry of the run keeps an id that the queue
      records as sent and the task as failed. */
  lemma CompletedExactly(s: SendState, owners: seq<Owner>, attached: seq<Owner>, i: nat, events: seq<Event>)
    requires Fresh(s, owners, attached) && i < |s.tasks| && FreshTask(s.queue, s.tasks[i])
    requires ProperUpTo(s, i, events, |events|)
    ensures CompleteUpTo(s, i, events, |events|) <==> GoodUpTo(s, i, events, |events|)
  {
    FreshIsBacked(s, owners, attached, s.tasks[i]);
    if GoodUpTo(s, i, events, |events|) { CompleteWhileGood(s, i, events); }
    if CompleteUpTo(s, i, events, |events|) { GoodWhileComplete(s, i, events, |events|); }
  }

  /** A task just created for the reply. */
  ghost predicate FreshTask(q: QueueItem, t: SendTask) {
    SameReply(q, t) && TaskSound(t) && t.acks == map[]
  }

  lemma FreshIsBacked(s: SendState, owners: seq<Owner>, attached: seq<Owner>, t: SendTask)
    requires Fresh(s, owners, attached) && FreshTask(s.queue, t)
    ensures Backed(s.queue, t)
  {
    var q := s.queue;
    FreshInStep(s, owners, attached);
    FreshParts(PartsOf(q.details), q.bridgeIds, owners);
    LocalStatusesDelivery(PartsOf(q.details), q.bridgeIds, owners);
    FoldInFold(q.bridgeIds, q.acks, Local(q));
    assert q.bridgeIds[0] in q.bridgeIds;
    assert q.bridgeIds[0] in t.bridgeIds;
    assert t.bridgeIds[0] in t.bridgeIds && RecordedStatus(t.acks, t.bridgeIds[0]) == Queued;
  }

  lemma FreshParts(ps: seq<Part>, ids: seq<BridgeId>, owners: seq<Owner>)
    requires AllOwned(ps, ids, owners, true) && LocalDelivery(ps, owners)
    requires forall i | 0 <= i < |owners| && owners[i].Some? :: ps[i].status == Queued
    ensures DeliveryParts(ps)
  {
    forall i | 0 <= i < |ps| ensures Delivery(ps[i].status) { assert owners[i].Some? || owners[i].None?; }
  }

  // ---------------------------------------------------------------- a worse record, from the start

  /** Both parts are sent; then the first reports a late failure. */
  lemma LateFailureRecorded(q: QueueItem, t: SendTask, b: BridgeId, c: BridgeId, a: Ack)
    requires Backed(q, t) && QueueSide(q, [Some(b), Some(c)]) && q.bridgeIds == [b, c] && q.status == Sent
    requires a.id == b && a.status == AckFailed && b in t.bridgeIds
    ensures var t' := TaskAfter(t, TaskAck(q, a));
            Backed(q, t') && QueueAfter(q, a) == q && RecordedStatus(t'.acks, b) == Failed && b in t'.bridgeIds
            && (c in t.bridgeIds ==> c in t'.bridgeIds)
  {
    FailureIsPreserved(q, b, c, a);
    BackedAck(q, t, a);
    assert TaskReferences(t, b);
    TaskMembers(t, TaskAck(q, a));
  }

  lemma ForeignAfter(ps: seq<Part>, b: BridgeId, c: BridgeId, op: RetryOp)
    requires Unused(ps, op.next) && op.dead == {op.next, c}
    ensures ForeignUnused(ps, [b, c], op)
  {
  }

  lemma SentTwice(q: QueueItem, t: SendTask, b: BridgeId, c: BridgeId, n: BridgeId, a1: Ack, a2: Ack)
    requires Backed(q, t) && QueueSide(q, [Some(b), Some(c)]) && q.bridgeIds == [b, c] && b != c
    requires q.acks == map[] && q.status == Queued && b in t.bridgeIds && c in t.bridgeIds
    requires a1.id == b && a2.id == c && a1.status == a2.status == AckSent
    requires Unused(PartsOf(q.details), n) && !Mentions(a1.reason, n) && !Mentions(a2.reason, n)
    ensures var q1, t1 := QueueAfter(q, a1), TaskAfter(t, TaskAck(q, a1));
            var q2, t2 := QueueAfter(q1, a2), TaskAfter(t1, TaskAck(q1, a2));
            && Backed(q2, t2) && QueueSide(q2, [Some(b), Some(c)]) && q2.bridgeIds == [b, c] && q2.status == Sent
            && b in t2.bridgeIds && c in t2.bridgeIds && Unused(PartsOf(q2.details), n)
  {
    var owners := [Some(b), Some(c)];
    FirstSent(q, owners, b, c, a1);
    UnusedAfter(q, t, n, a1);
    var q1, t1 := QueueAfter(q, a1), TaskAfter(t, TaskAck(q, a1));
    SecondSent(q1, b, c, owners, a2);
    UnusedAfter(q1, t1, n, a2);
  }

  lemma UnusedAfter(q: QueueItem, t: SendTask, n: BridgeId, a: Ack)
    requires Backed(q, t) && a.id in q.bridgeIds && a.id in t.bridgeIds && ApplyAck(q, a).Updated?
    requires Unused(PartsOf(q.details), n) && !Mentions(a.reason, n)
    ensures var t' := TaskAfter(t, TaskAck(q, a));
            && Backed(QueueAfter(q, a), t') && Unused(PartsOf(QueueAfter(q, a).details), n)
            && forall b | b in t.bridgeIds :: b in t'.bridgeIds
  {
    BackedAck(q, t, a);
    UpdatedFields(q, a);
    AckKeepsUnused(PartsOf(q.details), a.id, Mapped(a.status), a.reason, n);
    assert TaskReferences(t, a.id);
    TaskMembers(t, TaskAck(q, a));
  }

  lemma RetriedWorse(q: QueueItem, t: SendTask, b: BridgeId, c: BridgeId, op: RetryOp)
    requires Backed(q, t) && q.bridgeIds == [b, c] && q.status == Sent && b in t.bridgeIds && c in t.bridgeIds
    requires RecordedStatus(t.acks, b) == Failed && b != c && op.next !in [b, c] && op.dead == {op.next, c}
    requires Unused(PartsOf(q.details), op.next) && Mentions(op.reason, op.next)
    ensures ProperRetry(q, t, op) && !GoodTaskRetry(q, t, op)
  {
    ForeignAfter(PartsOf(q.details), b, c, op);
    assert c in op.dead && b !in op.dead;
    assert b in q.bridgeIds && q.acks[b].status == Sent;
    assert !RecordBacked(q, t, b);
  }

  /** For every fresh reply of two bridged parts with a task: both are sent, the first reports a late failure
      that the queue ignores and the task records, the second is retried and its new id is sent.  The item is
      sent and its task failed. */
  lemma SentWithFailedTask(s: SendState, i: nat, b: BridgeId, c: BridgeId, a1: Ack, a2: Ack, a3: Ack, op: RetryOp,
                           a4: Ack)
    requires TwoParts(s, b, c) && i < |s.tasks| && FreshTask(s.queue, s.tasks[i])
    requires a1.id == a3.id == b && a2.id == c && a1.status == a2.status == AckSent && a3.status == AckFailed
    requires op.next !in [b, c] && op.dead == {op.next, c} && Mentions(op.reason, op.next)
    requires Unused(PartsOf(s.queue.details), op.next) && !Mentions(a1.reason, op.next) && !Mentions(a2.reason, op.next)
    requires a4.id == op.next && a4.status == AckSent
    ensures var t := SyncAck(SyncRetry(SyncAck(SyncAck(SyncAck(s, a1), a2), a3), op), a4);
            t.queue.status == Sent && t.tasks[i].status == TaskFailed
  {
    FreshInStep(s, [Some(b), Some(c)], []);
    FreshQueued(s.queue, b, c);
    FreshIsBacked(s, [Some(b), Some(c)], [], s.tasks[i]);
    assert b in s.queue.bridgeIds && c in s.queue.bridgeIds;
    SentTwice(s.queue, s.tasks[i], b, c, op.next, a1, a2);
    WorseFrom(SyncAck(SyncAck(s, a1), a2), i, b, c, a3, op, a4);
  }

  lemma WorseFrom(s: SendState, i: nat, b: BridgeId, c: BridgeId, a3: Ack, op: RetryOp, a4: Ack)
    requires i < |s.tasks| && Backed(s.queue, s.tasks[i]) && QueueSide(s.queue, [Some(b), Some(c)])
    requires s.queue.bridgeIds == [b, c] && b != c && s.queue.status == Sent
    requires b in s.tasks[i].bridgeIds && c in s.tasks[i].bridgeIds && a3.id == b && a3.status == AckFailed
    requires op.next !in [b, c] && op.dead == {op.next, c} && Mentions(op.reason, op.next)
    requires Unused(PartsOf(s.queue.details), op.next) && a4.id == op.next && a4.status == AckSent
    ensures var t := SyncAck(SyncRetry(SyncAck(s, a3), op), a4);
            t.queue.status == Sent && t.tasks[i].status == TaskFailed
  {
    LateFailureRecorded(s.queue, s.tasks[i], b, c, a3);
    var u := SyncAck(s, a3);
    RetriedWorse(u.queue, u.tasks[i], b, c, op);
    WorseRecordShows(u.queue, u.tasks[i], op, a4);
  }
}
