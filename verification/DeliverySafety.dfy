/** Safety over arbitrary runs of acks and retries: downgrades, repetitions, `blocked`, ids the
    item never expected, any reasons. */
module DeliverySafety {
  import opened SendParts
  import opened QueueProjection
  import opened TaskProjection
  import opened SendSync
  import opened LockStep
  import opened LockStepRuns

  // ---------------------------------------------------------------- the queue item

  ghost predicate DeliveryParts(ps: seq<Part>) {
    forall i | 0 <= i < |ps| :: Delivery(ps[i].status)
  }

  /** A sent item has a sent ack for every expected id, and all its local parts are sent. */
  ghost predicate SentBacked(q: QueueItem) {
    q.status == Sent ==>
      && (forall b | b in q.bridgeIds :: b in q.acks && q.acks[b].status == Sent)
      && (forall i | 0 <= i < |PartsOf(q.details)| ::
            !ReferencesSome(PartsOf(q.details)[i], q.bridgeIds) ==> PartsOf(q.details)[i].status == Sent)
  }

  ghost predicate QueueSound(q: QueueItem) {
    DeliveryParts(PartsOf(q.details)) && TerminalAcks(q.acks) && SentBacked(q)
  }

  lemma SentFold(ids: seq<BridgeId>, acks: map<BridgeId, AckRecord>, local: seq<Status>)
    requires AggregateQueue(ids, acks, local) == Sent && ids != []
    requires TerminalAcks(acks) && forall s | s in local :: Delivery(s)
    ensures forall b | b in ids :: b in acks && acks[b].status == Sent
    ensures forall s | s in local :: s == Sent
  {
    FoldMembers(ids, acks, local);
    AggregateQueueIsMeet(ids, acks, local);
    forall b | b in ids ensures b in acks && acks[b].status == Sent {
      assert InFold(RecordedStatus(acks, b), ids, acks, local);
    }
    forall s | s in local ensures s == Sent { assert InFold(s, ids, acks, local); }
  }

  /** When the status an item would get is `Sent`, every ack and every local part is. */
  lemma NextSent(q: QueueItem, a: Ack)
    requires DeliveryParts(PartsOf(q.details)) && TerminalAcks(q.acks) && NextStatus(q, a) == Sent
    ensures var ids := ExpectedIds(q, a);
            && a.status == AckSent
            && (forall b | b in ids :: b in AcksWith(q.acks, a) && AcksWith(q.acks, a)[b].status == Sent)
            && (forall s | s in LocalStatuses(PartsOf(q.details), ids) :: s == Sent)
  {
    var ids := ExpectedIds(q, a);
    assert a.id in q.bridgeIds + [a.id];
    LocalStatusesExact(PartsOf(q.details), ids);
    FoldSent(ids, q.acks, LocalStatuses(PartsOf(q.details), ids), a);
  }

  lemma FoldSent(ids: seq<BridgeId>, acks: map<BridgeId, AckRecord>, local: seq<Status>, a: Ack)
    requires a.id in ids && TerminalAcks(acks) && forall s | s in local :: Delivery(s)
    requires Sent == if |ids| > 1 || local != [] then AggregateQueue(ids, AcksWith(acks, a), local)
                     else Mapped(a.status)
    ensures a.status == AckSent && forall s | s in local :: s == Sent
    ensures forall b | b in ids :: b in AcksWith(acks, a) && AcksWith(acks, a)[b].status == Sent
  {
    if |ids| > 1 || local != [] {
      SentFold(ids, AcksWith(acks, a), local);
      assert AcksWith(acks, a)[a.id].status == Mapped(a.status);
    } else {
      assert ids == [a.id];
    }
  }

  lemma NextIsDelivery(q: QueueItem, a: Ack)
    requires QueueSound(q)
    ensures Delivery(NextStatus(q, a))
  {
    var ids := ExpectedIds(q, a);
    var local := LocalStatuses(PartsOf(q.details), ids);
    LocalStatusesExact(PartsOf(q.details), ids);
    if |ids| > 1 || local != [] {
      assert a.id in q.bridgeIds + [a.id];
      assert a.id in ids;
      AggregateQueueIsMeet(ids, AcksWith(q.acks, a), local);
    }
  }

  lemma PartsStaySent(ps: seq<Part>, ids: seq<BridgeId>, id: BridgeId, reason: string)
    requires id in ids && forall s | s in LocalStatuses(ps, ids) :: s == Sent
    ensures forall i | 0 <= i < |ps| ::
              var p := AckParts(ps, id, Sent, reason)[i]; !ReferencesSome(p, ids) ==> p.status == Sent
  {
    LocalStatusesExact(ps, ids);
    forall i | 0 <= i < |ps| && !ReferencesSome(AckParts(ps, id, Sent, reason)[i], ids)
      ensures AckParts(ps, id, Sent, reason)[i].status == Sent
    {
      if !References(ps[i], id) { assert ps[i].status in LocalStatuses(ps, ids); }
    }
  }

  /** One arbitrary ack keeps the item sound, and a sent item sent. */
  lemma QueueSoundStep(q: QueueItem, a: Ack)
    requires QueueSound(q)
    ensures QueueSound(QueueAfter(q, a))
    ensures q.status == Sent ==> QueueAfter(q, a).status == Sent
  {
    if ApplyAck(q, a).Updated? {
      UpdatedFields(q, a);
      if NextStatus(q, a) == Sent {
        NextSent(q, a);
        PartsStaySent(PartsOf(q.details), ExpectedIds(q, a), a.id, a.reason);
      }
    } else {
      NotUpdated(q, a);
    }
  }

  lemma UpdatedFields(q: QueueItem, a: Ack)
    requires ApplyAck(q, a).Updated?
    ensures var r := QueueAfter(q, a);
            && r.status == NextStatus(q, a) && r.bridgeIds == ExpectedIds(q, a) && r.acks == AcksWith(q.acks, a)
            && PartsOf(r.details) == AckParts(PartsOf(q.details), a.id, Mapped(a.status), a.reason)
    ensures a.id in ExpectedIds(q, a)
    ensures q.status == Sent ==> NextStatus(q, a) == Sent
  {
    ItemFields(q, a);
    assert a.id in q.bridgeIds + [a.id];
  }

  lemma NotUpdated(q: QueueItem, a: Ack)
    requires !ApplyAck(q, a).Updated?
    ensures QueueAfter(q, a) == q
  {
  }

  // ---------------------------------------------------------------- the tasks

  /** A completed task has an ack for every expected id, and `finished_at` marks the terminal tasks. */
  ghost predicate TaskSound(t: SendTask) {
    && (t.status == TaskCompleted ==> forall b | b in t.bridgeIds :: b in t.acks)
    && t.finished == Terminal(t.status)
  }

  lemma NotQueuedMeansAcked(ids: seq<BridgeId>, acks: map<BridgeId, AckRecord>, local: seq<Status>, b: BridgeId)
    requires AggregateQueue(ids, acks, local) in {Sent, Accepted} && b in ids
    ensures b in acks
  {
    FoldMembers(ids, acks, local);
    assert InFold(RecordedStatus(acks, b), ids, acks, local);
  }

  /** One arbitrary ack keeps the task sound, never reopens a terminal task and never leaves completed. */
  lemma TaskSoundStep(t: SendTask, a: Ack)
    requires TaskSound(t)
    ensures TaskSound(TaskAfter(t, a))
    ensures Terminal(t.status) ==> Terminal(TaskAfter(t, a).status)
    ensures t.status == TaskCompleted ==> TaskAfter(t, a).status == TaskCompleted
  {
    if TaskReferences(t, a.id) {
      var ids, acks := TaskExpectedIds(t, a), AcksWith(t.acks, a);
      TaskFields(t, a);
      if TaskNextStatus(t, a) == TaskCompleted {
        forall b | b in ids ensures b in acks {
          assert b in t.bridgeIds + [a.id];
          if t.status != TaskCompleted && (|ids| > 1 || TaskLocal(t) != []) {
            NotQueuedMeansAcked(ids, acks, TaskLocal(t), b);
          } else if t.status != TaskCompleted {
            SingleId(t.bridgeIds, a.id, b);
          } else if b in t.bridgeIds {
            assert b in t.acks;
          }
        }
      }
    }
  }

  lemma SingleId(ids: seq<BridgeId>, id: BridgeId, b: BridgeId)
    requires |Dedupe(ids + [id])| <= 1 && b in Dedupe(ids + [id])
    ensures b == id
  {
    assert id in ids + [id];
    assert id in Dedupe(ids + [id]);
  }

  lemma TaskFields(t: SendTask, a: Ack)
    requires TaskReferences(t, a.id)
    ensures var r := TaskAfter(t, a);
            && r.status == TaskNextStatus(t, a) && r.bridgeIds == TaskExpectedIds(t, a) && r.acks == AcksWith(t.acks, a)
            && r.finished == (t.finished || Terminal(r.status))
            && SameLocalParts(t, r)
  {
  }

  lemma TaskSoundRetry(t: SendTask, op: RetryOp)
    requires TaskSound(t)
    ensures TaskSound(TaskRetry(t, op))
  {
  }

  /** A retry leaves the new id unacked, so the item is not sent afterwards. */
  lemma QueueSoundRetry(q: QueueItem, op: RetryOp)
    requires QueueSound(q)
    ensures QueueSound(QueueRetry(q, op))
    ensures QueueRetry(q, op) != q ==> QueueRetry(q, op).status in {Queued, Failed}
  {
    var ids, acks := RetryIds(q.bridgeIds, op.dead, op.next), KeepAcks(q.acks, op);
    assert op.next in ids && op.next !in acks;
    var k :| 0 <= k < |ids| && ids[k] == op.next;
    assert RecordedStatuses(ids, acks)[k] == Queued;
  }

  // ---------------------------------------------------------------- runs of acks and retries

  datatype Event = OnAck(ack: Ack) | OnRetry(op: RetryOp)

  function After(s: SendState, e: Event): (r: SendState)
    ensures |r.tasks| == |s.tasks|
  {
    match e case OnAck(a) => SyncAck(s, a) case OnRetry(op) => SyncRetry(s, op)
  }

  function RunEvents(s: SendState, events: seq<Event>): (r: SendState)
    ensures |r.tasks| == |s.tasks|
  {
    if events == [] then s else After(RunEvents(s, events[..|events| - 1]), events[|events| - 1])
  }

  ghost predicate Sound(s: SendState) {
    QueueSound(s.queue) && forall i | 0 <= i < |s.tasks| :: TaskSound(s.tasks[i])
  }

  lemma SoundStep(s: SendState, e: Event)
    requires Sound(s)
    ensures Sound(After(s, e))
  {
    match e
    case OnAck(a) =>
      QueueSoundStep(s.queue, a);
      forall i | 0 <= i < |s.tasks| { TaskSoundStep(s.tasks[i], TaskAck(s.queue, a)); }
    case OnRetry(op) =>
      QueueSoundRetry(s.queue, op);
      forall i | 0 <= i < |s.tasks| { TaskSoundRetry(s.tasks[i], op); }
  }

  /** Whatever happens: a sent item has sent acks for all its ids and sent local parts, a completed
      task has an ack for all its ids, and `finished_at` is set exactly on terminal tasks. */
  lemma {:induction false} AlwaysSound(s: SendState, events: seq<Event>)
    requires Sound(s)
    ensures Sound(RunEvents(s, events))
  {
    if events != [] {
      AlwaysSound(s, events[..|events| - 1]);
      SoundStep(RunEvents(s, events[..|events| - 1]), events[|events| - 1]);
    }
  }

  /** As long as only acks arrive, sent items stay sent, completed tasks stay completed, terminal tasks
      stay terminal and keep `finished_at`. */
  lemma {:induction false} AcksNeverReopen(s: SendState, feed: seq<Ack>, i: nat)
    requires Sound(s) && i < |s.tasks|
    ensures |Run(s, feed).tasks| == |s.tasks| && Sound(Run(s, feed))
    ensures s.queue.status == Sent ==> Run(s, feed).queue.status == Sent
    ensures s.tasks[i].status == TaskCompleted ==> Run(s, feed).tasks[i].status == TaskCompleted
    ensures Terminal(s.tasks[i].status) ==> Terminal(Run(s, feed).tasks[i].status) && Run(s, feed).tasks[i].finished
  {
    if feed != [] {
      var t, a := Run(s, feed[..|feed| - 1]), feed[|feed| - 1];
      AcksNeverReopen(s, feed[..|feed| - 1], i);
      SoundStep(t, OnAck(a));
      QueueSoundStep(t.queue, a);
      TaskSoundStep(t.tasks[i], TaskAck(t.queue, a));
    }
  }

  // ---------------------------------------------------------------- queue sent implies task completed

  /** A task that tracks the same reply as the item: same ids, same local statuses. */
  ghost predicate SameReply(q: QueueItem, t: SendTask) {
    && Distinct(t.bridgeIds)
    && (forall b :: b in t.bridgeIds <==> b in q.bridgeIds)
    && (forall s :: LocalPart(t, s) <==> s in Local(q))
  }

  /** Until the item is sent, task and item record the same acks except where the item refused the
      latest; once it is sent the task is completed. */
  ghost predicate TaskFollows(q: QueueItem, t: SendTask, lag: set<BridgeId>) {
    && SameReply(q, t)
    && if q.status == Sent then t.status == TaskCompleted
       else forall b | b in q.bridgeIds ::
              if b in lag then RecordedStatus(q.acks, b) == Failed
              else RecordedStatus(q.acks, b) == RecordedStatus(t.acks, b)
  }

  lemma AllSentFold(ids: seq<BridgeId>, acks: map<BridgeId, AckRecord>, local: seq<Status>)
    requires ids != [] && (forall b | b in ids :: RecordedStatus(acks, b) == Sent) && forall s | s in local :: s == Sent
    ensures AggregateQueue(ids, acks, local) == Sent
  {
    FoldMembers(ids, acks, local);
    AggregateQueueIsMeet(ids, acks, local);
    var m := AggregateQueue(ids, acks, local);
    assert m in local + RecordedStatuses(ids, acks);
    assert InFold(m, ids, acks, local);
  }

  lemma TaskExpectedUnchanged(t: SendTask, a: Ack)
    requires Distinct(t.bridgeIds) && a.id in t.bridgeIds
    ensures TaskExpectedIds(t, a) == t.bridgeIds && TaskReferences(t, a.id)
  {
    var ids := t.bridgeIds + [a.id];
    assert ids[..|ids| - 1] == t.bridgeIds;
  }

  lemma TaskCompletes(t: SendTask, a: Ack)
    requires Distinct(t.bridgeIds) && a.id in t.bridgeIds
    requires (forall b | b in t.bridgeIds :: RecordedStatus(AcksWith(t.acks, a), b) == Sent)
    requires forall s | LocalPart(t, s) :: s == Sent
    ensures TaskAfter(t, a).status == TaskCompleted
  {
    TaskLocalExact(t);
    TaskExpectedUnchanged(t, a);
    TaskFields(t, a);
    AllSentFold(t.bridgeIds, AcksWith(t.acks, a), TaskLocal(t));
    assert RecordedStatus(AcksWith(t.acks, a), a.id) == Mapped(a.status);
  }

  /** The ack was stored and the item is sent now but was not before. */
  lemma SentNow(q: QueueItem, owners: seq<Owner>, t: SendTask, lag: set<BridgeId>, a: Ack)
    requires QueueSide(q, owners) && TaskFollows(q, t, lag) && a.id in q.bridgeIds && q.status != Sent
    requires QueueSide(ItemWithAck(q, a), owners) && ItemWithAck(q, a).status == Sent
    requires ItemWithAck(q, a).bridgeIds == q.bridgeIds && Local(ItemWithAck(q, a)) == Local(q)
    ensures TaskAfter(t, a).status == TaskCompleted
  {
    var q' := ItemWithAck(q, a);
    ItemFields(q, a);
    SentMeansAllRecorded(q', owners);
    forall b | b in t.bridgeIds ensures RecordedStatus(AcksWith(t.acks, a), b) == Sent {
      assert RecordedStatus(q'.acks, b) == Sent;
    }
    TaskCompletes(t, a);
  }

  lemma FollowsStored(q: QueueItem, q': QueueItem, t: SendTask, t': SendTask, lag: set<BridgeId>, a: Ack)
    requires TaskFollows(q, t, lag) && q'.bridgeIds == q.bridgeIds
    requires Local(q') == Local(q) && q'.acks == AcksWith(q.acks, a)
    requires t'.bridgeIds == t.bridgeIds && SameLocalParts(t, t') && t'.acks == AcksWith(t.acks, a)
    requires q'.status == Sent ==> t'.status == TaskCompleted
    requires q.status == Sent ==> q'.status == Sent
    ensures TaskFollows(q', t', lag - {a.id})
  {
  }

  lemma FollowsUnstored(q: QueueItem, t: SendTask, t': SendTask, lag: set<BridgeId>, a: Ack)
    requires TaskFollows(q, t, lag)
    requires t'.bridgeIds == t.bridgeIds && SameLocalParts(t, t') && t'.acks == AcksWith(t.acks, a)
    requires q.status == Sent ==> t'.status == TaskCompleted
    requires q.status != Sent ==> RecordedStatus(q.acks, a.id) == Failed
    ensures TaskFollows(q, t', if q.status == Sent then lag else lag + {a.id})
  {
  }

  lemma TaskFollowsStep(q: QueueItem, owners: seq<Owner>, t: SendTask, lag: set<BridgeId>, a: Ack)
    requires QueueSide(q, owners) && TaskFollows(q, t, lag) && a.id in q.bridgeIds
    ensures QueueSide(QueueAfter(q, a), owners) && QueueAfter(q, a).bridgeIds == q.bridgeIds
    ensures TaskFollows(QueueAfter(q, a), TaskAfter(t, TaskAck(q, a)), NextLag(q, a, lag))
  {
    var seen := TaskAck(q, a);
    var t' := TaskAfter(t, seen);
    QueueVerdict(q, owners, a);
    TaskExpectedUnchanged(t, seen);
    TaskFields(t, seen);
    if ApplyAck(q, a).Updated? {
      StoredQueue(q, owners, a);
      if QueueAfter(q, a).status == Sent && q.status != Sent { SentNow(q, owners, t, lag, a); }
      FollowsStored(q, QueueAfter(q, a), t, t', lag, a);
    } else {
      NotUpdated(q, a);
      FollowsUnstored(q, t, t', lag, seen);
    }
  }

  /** From a fresh reply, over any feed for its ids: whenever the item is sent, the task is completed. */
  lemma {:induction false} SentImpliesCompleted(s: SendState, owners: seq<Owner>, attached: seq<Owner>, feed: seq<Ack>,
                                                i: nat)
    requires Fresh(s, owners, attached) && i < |s.tasks| && SameReply(s.queue, s.tasks[i]) && s.tasks[i].acks == map[]
    requires forall k | 0 <= k < |feed| :: feed[k].id in s.queue.bridgeIds
    ensures var t := Run(s, feed);
            && QueueSide(t.queue, owners) && t.queue.bridgeIds == s.queue.bridgeIds && |t.tasks| == |s.tasks|
            && TaskFollows(t.queue, t.tasks[i], LagAfter(s, feed))
            && (t.queue.status == Sent ==> t.tasks[i].status == TaskCompleted)
  {
    if feed == [] {
      FreshInStep(s, owners, attached);
    } else {
      var init, a := feed[..|feed| - 1], feed[|feed| - 1];
      SentImpliesCompleted(s, owners, attached, init, i);
      var t := Run(s, init);
      TaskFollowsStep(t.queue, owners, t.tasks[i], LagAfter(s, init), a);
    }
  }
}
