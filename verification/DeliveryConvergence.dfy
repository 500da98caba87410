/** Convergence: when acks only repeat or move from accepted to sent, the order in which the acks
    of different parts arrive does not matter. */
module DeliveryConvergence {
  import opened SendParts
  import opened QueueProjection
  import opened TaskProjection
  import opened SendSync
  import opened LockStep
  import opened LockStepRuns
  import opened DeliverySafety

  /** The statuses acked for one id, in order. */
  function Acked(feed: seq<Ack>, b: BridgeId): seq<AckStatus> {
    if feed == [] then []
    else
      var rest := Acked(feed[..|feed| - 1], b);
      if feed[|feed| - 1].id == b then rest + [feed[|feed| - 1].status] else rest
  }

  predicate Upgrade(x: AckStatus, y: AckStatus) {
    x == y || (x == AckAccepted && y == AckSent)
  }

  /** Per id, acks only repeat or go from accepted to sent. */
  ghost predicate UpgradeOnly(feed: seq<Ack>, ids: seq<BridgeId>) {
    forall b | b in ids :: forall i, j | 0 <= i < j < |Acked(feed, b)| :: Upgrade(Acked(feed, b)[i], Acked(feed, b)[j])
  }

  /** The same acks per id, merged in any order; repetitions of the last ack may differ. */
  ghost predicate SameLastAcks(f: seq<Ack>, g: seq<Ack>, ids: seq<BridgeId>) {
    forall b | b in ids :: LastRecorded(f, b) == LastRecorded(g, b)
  }

  function LastRecorded(feed: seq<Ack>, b: BridgeId): Status {
    var s := Acked(feed, b);
    if s == [] then Queued else Mapped(s[|s| - 1])
  }

  /** What the reply must converge to: the local statuses and, per id, the last ack. */
  ghost predicate InResult(x: Status, s: SendState, feed: seq<Ack>) {
    x in Local(s.queue) || exists b | b in s.queue.bridgeIds :: LastRecorded(feed, b) == x
  }

  /** `m` is the least of the results in the order failed < queued < accepted < sent. */
  ghost predicate IsResult(m: Status, s: SendState, feed: seq<Ack>) {
    InResult(m, s, feed) && forall x | InResult(x, s, feed) :: Rank(m) <= Rank(x)
  }

  function TaskOf(m: Status): TaskStatus {
    match m
    case Queued => TaskQueued
    case Sent => TaskCompleted
    case Accepted => TaskCompleted
    case _ => TaskFailed
  }

  // ---------------------------------------------------------------- one upgrading ack

  predicate Upgrades(acks: map<BridgeId, AckRecord>, a: Ack) {
    var r := RecordedStatus(acks, a.id);
    r == Queued || r == Mapped(a.status) || (r == Accepted && Mapped(a.status) == Sent)
  }

  /** The least status of a fold is one of those in it. */
  lemma LeastInFold(ids: seq<BridgeId>, acks: map<BridgeId, AckRecord>, local: seq<Status>)
    requires ids != [] && TerminalAcks(acks) && forall s | s in local :: Delivery(s)
    ensures var m := AggregateQueue(ids, acks, local);
            && Delivery(m) && InFold(m, ids, acks, local)
            && forall s | InFold(s, ids, acks, local) :: Rank(m) <= Rank(s)
  {
    FoldMembers(ids, acks, local);
    AggregateQueueIsMeet(ids, acks, local);
  }

  lemma UpgradedRecord(acks: map<BridgeId, AckRecord>, a: Ack, b: BridgeId)
    requires TerminalAcks(acks) && Upgrades(acks, a)
    ensures var r, r' := RecordedStatus(acks, b), RecordedStatus(AcksWith(acks, a), b);
            && (r == Failed ==> r' == Failed) && (r == Sent ==> r' == Sent)
            && (r == Accepted ==> r' in {Accepted, Sent})
  {
  }

  lemma StaysFailed(ids: seq<BridgeId>, acks: map<BridgeId, AckRecord>, a: Ack, local: seq<Status>)
    requires TerminalAcks(acks) && Upgrades(acks, a) && InFold(Failed, ids, acks, local)
    ensures InFold(Failed, ids, AcksWith(acks, a), local)
  {
    if Failed !in local {
      var b :| b in ids && RecordedStatus(acks, b) == Failed;
      UpgradedRecord(acks, a, b);
    }
  }

  /** Whatever the new fold holds is no less than something in the earlier one. */
  lemma NotLess(ids: seq<BridgeId>, acks: map<BridgeId, AckRecord>, a: Ack, local: seq<Status>, s: Status)
    requires TerminalAcks(acks) && Upgrades(acks, a) && InFold(s, ids, AcksWith(acks, a), local)
    ensures || InFold(s, ids, acks, local)
            || exists r | InFold(r, ids, acks, local) :: r == Queued || (r == Accepted && s == Sent)
  {
    if s !in local {
      var b :| b in ids && RecordedStatus(AcksWith(acks, a), b) == s;
      assert InFold(RecordedStatus(acks, b), ids, acks, local);
    }
  }

  lemma UpgradeMoves(ids: seq<BridgeId>, acks: map<BridgeId, AckRecord>, a: Ack, local: seq<Status>)
    requires a.id in ids && TerminalAcks(acks) && (forall s | s in local :: Delivery(s)) && Upgrades(acks, a)
    ensures var m, m' := AggregateQueue(ids, acks, local), AggregateQueue(ids, AcksWith(acks, a), local);
            && (m == Failed ==> m' == Failed) && (m == Sent ==> m' == Sent)
            && (m == Accepted ==> m' in {Accepted, Sent})
            && Delivery(m')
  {
    var m, m' := AggregateQueue(ids, acks, local), AggregateQueue(ids, AcksWith(acks, a), local);
    LeastInFold(ids, acks, local);
    LeastInFold(ids, AcksWith(acks, a), local);
    if m == Failed { StaysFailed(ids, acks, a, local); }
    NotLess(ids, acks, a, local, m');
  }

  /** An upgrading ack is neither refused nor preserved. */
  lemma UpgradeIsStored(q: QueueItem, owners: seq<Owner>, a: Ack)
    requires QueueSide(q, owners) && a.id in q.bridgeIds && Upgrades(q.acks, a)
    ensures ApplyAck(q, a).Updated?
    ensures var m, m' := q.status, QueueAfter(q, a).status;
            (m == Failed ==> m' == Failed) && (m == Sent ==> m' == Sent) && (m == Accepted ==> m' in {Accepted, Sent})
  {
    QueueVerdict(q, owners, a);
    NextStatusIsFold(q, a);
    LocalStatusesDelivery(PartsOf(q.details), q.bridgeIds, owners);
    UpgradeMoves(q.bridgeIds, q.acks, a, Local(q));
    ItemFields(q, a);
  }

  /** Two folds over the same statuses are equal. */
  lemma SameFold(ids: seq<BridgeId>, acks: map<BridgeId, AckRecord>, local: seq<Status>,
                 ids': seq<BridgeId>, acks': map<BridgeId, AckRecord>, local': seq<Status>)
    requires ids != [] && TerminalAcks(acks) && forall s | s in local :: Delivery(s)
    requires forall b :: b in ids <==> b in ids'
    requires forall b | b in ids :: RecordedStatus(acks, b) == RecordedStatus(acks', b)
    requires forall s :: s in local <==> s in local'
    ensures AggregateQueue(ids, acks, local) == AggregateQueue(ids', acks', local')
  {
    FoldMembers(ids, acks, local);
    FoldMembers(ids', acks', local');
    assert ids[0] in ids';
    forall s ensures InFold(s, ids, acks, local) <==> InFold(s, ids', acks', local') {
      if b :| b in ids && RecordedStatus(acks, b) == s { assert b in ids' && RecordedStatus(acks', b) == s; }
      if b :| b in ids' && RecordedStatus(acks', b) == s { assert b in ids && RecordedStatus(acks, b) == s; }
    }
    AggregateQueueIsMeet(ids, acks, local);
    AggregateQueueIsMeet(ids', acks', local');
    MeetUnique(AggregateQueue(ids, acks, local), AggregateQueue(ids', acks', local'),
               Elements(local + RecordedStatuses(ids, acks)), Elements(local' + RecordedStatuses(ids', acks')));
  }

  /** A task that agrees with the item: same reply, same recorded acks, corresponding status. */
  ghost predicate TaskAgrees(q: QueueItem, t: SendTask) {
    && SameReply(q, t)
    && (forall b | b in q.bridgeIds :: RecordedStatus(q.acks, b) == RecordedStatus(t.acks, b))
    && t.status == TaskOf(q.status)
  }

  lemma TaskStatusMoves(t: SendTask, a: Ack, m: Status)
    requires t.status == TaskOf(m) && Delivery(m) && Delivery(TaskAggregate(t, a))
    requires m == Failed ==> TaskAggregate(t, a) == Failed
    requires m in {Sent, Accepted} ==> TaskAggregate(t, a) in {Sent, Accepted}
    ensures TaskNextStatus(t, a) == TaskOf(TaskAggregate(t, a))
  {
  }

  /** The task's own fold of its own records gives the status the item got. */
  lemma TaskAggregateAgrees(q': QueueItem, owners: seq<Owner>, t: SendTask, a: Ack)
    requires QueueSide(q', owners) && a.id in q'.bridgeIds && SameReply(q', t)
    requires forall b | b in q'.bridgeIds :: RecordedStatus(q'.acks, b) == RecordedStatus(AcksWith(t.acks, a), b)
    ensures TaskAggregate(t, a) == q'.status && Delivery(q'.status)
  {
    LocalStatusesDelivery(PartsOf(q'.details), q'.bridgeIds, owners);
    AggregateQueueIsMeet(q'.bridgeIds, q'.acks, Local(q'));
    TaskSingle(t, a);
    SameFold(q'.bridgeIds, q'.acks, Local(q'), t.bridgeIds, AcksWith(t.acks, a), TaskLocal(t));
  }

  lemma TaskAgreesStep(q: QueueItem, q': QueueItem, owners: seq<Owner>, t: SendTask, a: Ack)
    requires TaskAgrees(q, t) && a.id in q.bridgeIds && QueueSide(q', owners) && Delivery(q.status)
    requires q'.bridgeIds == q.bridgeIds && Local(q') == Local(q) && q'.acks == AcksWith(q.acks, a)
    requires q.status == Failed ==> q'.status == Failed
    requires q.status in {Sent, Accepted} ==> q'.status in {Sent, Accepted}
    ensures TaskAgrees(q', TaskAfter(t, a))
  {
    TaskExpectedUnchanged(t, a);
    TaskFields(t, a);
    TaskAggregateAgrees(q', owners, t, a);
    TaskStatusMoves(t, a, q.status);
    AgreesKept(q, q', t, TaskAfter(t, a), a);
  }

  lemma TaskAgreesSync(s: SendState, owners: seq<Owner>, a: Ack, i: nat)
    requires QueueSide(s.queue, owners) && a.id in s.queue.bridgeIds && Upgrades(s.queue.acks, a)
    requires i < |s.tasks| && TaskAgrees(s.queue, s.tasks[i])
    ensures TaskAgrees(SyncAck(s, a).queue, SyncAck(s, a).tasks[i])
  {
    UpgradeIsStored(s.queue, owners, a);
    StoredQueue(s.queue, owners, a);
    StatusStep(s.queue, owners, a);
    TaskAgreesStep(s.queue, QueueAfter(s.queue, a), owners, s.tasks[i], a);
  }

  lemma AgreesKept(q: QueueItem, q': QueueItem, t: SendTask, t': SendTask, a: Ack)
    requires TaskAgrees(q, t) && q'.bridgeIds == q.bridgeIds && Local(q') == Local(q) && q'.acks == AcksWith(q.acks, a)
    requires t'.bridgeIds == t.bridgeIds && SameLocalParts(t, t') && t'.acks == AcksWith(t.acks, a)
    requires t'.status == TaskOf(q'.status)
    ensures TaskAgrees(q', t')
  {
  }

  lemma TaskSingle(t: SendTask, a: Ack)
    requires Distinct(t.bridgeIds) && a.id in t.bridgeIds
    ensures TaskAggregate(t, a) == AggregateQueue(t.bridgeIds, AcksWith(t.acks, a), TaskLocal(t))
  {
    TaskExpectedUnchanged(t, a);
    if |t.bridgeIds| == 1 && TaskLocal(t) == [] {
      assert t.bridgeIds[0] == a.id;
      assert TaskLocal(t) + RecordedStatuses(t.bridgeIds, AcksWith(t.acks, a)) == [Mapped(a.status)];
    }
  }

  // ---------------------------------------------------------------- feeds

  lemma AckedPrefix(feed: seq<Ack>, ids: seq<BridgeId>)
    requires feed != [] && UpgradeOnly(feed, ids)
    ensures UpgradeOnly(feed[..|feed| - 1], ids)
    ensures var a := feed[|feed| - 1];
            a.id in ids ==> LastRecorded(feed[..|feed| - 1], a.id) == Queued
                            || LastRecorded(feed[..|feed| - 1], a.id) == Mapped(a.status)
                            || (LastRecorded(feed[..|feed| - 1], a.id) == Accepted && Mapped(a.status) == Sent)
  {
    var init, a := feed[..|feed| - 1], feed[|feed| - 1];
    forall b, i, j | b in ids && 0 <= i < j < |Acked(init, b)| ensures Upgrade(Acked(init, b)[i], Acked(init, b)[j]) {
      assert Acked(feed, b)[i] == Acked(init, b)[i] && Acked(feed, b)[j] == Acked(init, b)[j];
    }
    if a.id in ids && Acked(init, a.id) != [] {
      var n := |Acked(init, a.id)|;
      assert Upgrade(Acked(feed, a.id)[n - 1], Acked(feed, a.id)[n]);
    }
  }

  ghost predicate Recorded(s: SendState, q: QueueItem, feed: seq<Ack>) {
    && q.bridgeIds == s.queue.bridgeIds && Local(q) == Local(s.queue)
    && forall b | b in q.bridgeIds :: RecordedStatus(q.acks, b) == LastRecorded(feed, b)
  }

  lemma LastRecordedNext(feed: seq<Ack>, b: BridgeId)
    requires feed != []
    ensures LastRecorded(feed, b) ==
            if feed[|feed| - 1].id == b then Mapped(feed[|feed| - 1].status) else LastRecorded(feed[..|feed| - 1], b)
  {
  }

  lemma RecordedKept(s: SendState, q: QueueItem, q': QueueItem, feed: seq<Ack>)
    requires feed != [] && Recorded(s, q, feed[..|feed| - 1])
    requires q'.bridgeIds == q.bridgeIds && Local(q') == Local(q) && q'.acks == AcksWith(q.acks, feed[|feed| - 1])
    ensures Recorded(s, q', feed)
  {
    forall b | b in q.bridgeIds ensures RecordedStatus(q'.acks, b) == LastRecorded(feed, b) {
      LastRecordedNext(feed, b);
    }
  }

  lemma RecordedStep(s: SendState, q: QueueItem, owners: seq<Owner>, feed: seq<Ack>)
    requires feed != [] && UpgradeOnly(feed, s.queue.bridgeIds) && QueueSide(q, owners)
    requires Recorded(s, q, feed[..|feed| - 1]) && feed[|feed| - 1].id in q.bridgeIds
    ensures Upgrades(q.acks, feed[|feed| - 1]) && ApplyAck(q, feed[|feed| - 1]).Updated?
    ensures Recorded(s, QueueAfter(q, feed[|feed| - 1]), feed) && QueueSide(QueueAfter(q, feed[|feed| - 1]), owners)
  {
    var a := feed[|feed| - 1];
    AckedPrefix(feed, s.queue.bridgeIds);
    UpgradeIsStored(q, owners, a);
    StoredQueue(q, owners, a);
    RecordedKept(s, q, QueueAfter(q, a), feed);
  }

  lemma {:induction false} UpgradeFeed(s: SendState, owners: seq<Owner>, attached: seq<Owner>, feed: seq<Ack>)
    requires Fresh(s, owners, attached) && CleanFeed(feed, s.queue.bridgeIds) && UpgradeOnly(feed, s.queue.bridgeIds)
    ensures QueueSide(Run(s, feed).queue, owners) && Recorded(s, Run(s, feed).queue, feed) && LagAfter(s, feed) == {}
  {
    if feed == [] {
      FreshInStep(s, owners, attached);
    } else {
      var init, a := feed[..|feed| - 1], feed[|feed| - 1];
      AckedPrefix(feed, s.queue.bridgeIds);
      UpgradeFeed(s, owners, attached, init);
      assert Clean(a, s.queue.bridgeIds);
      RecordedStep(s, Run(s, init).queue, owners, feed);
      StoredLag(Run(s, init).queue, a);
    }
  }

  lemma StoredLag(q: QueueItem, a: Ack)
    ensures ApplyAck(q, a).Updated? ==> NextLag(q, a, {}) == {}
  {
  }

  /** Along an upgrade-only feed the queue stores every ack: none is refused, no item is preserved. */
  lemma {:induction false} UpgradeFeedStored(s: SendState, owners: seq<Owner>, attached: seq<Owner>, feed: seq<Ack>,
                                             k: nat)
    requires Fresh(s, owners, attached) && CleanFeed(feed, s.queue.bridgeIds) && UpgradeOnly(feed, s.queue.bridgeIds)
    requires k < |feed|
    ensures ApplyAck(Run(s, feed[..k]).queue, feed[k]).Updated?
  {
    var init, a := feed[..|feed| - 1], feed[|feed| - 1];
    AckedPrefix(feed, s.queue.bridgeIds);
    if k < |init| {
      assert init[..k] == feed[..k] && init[k] == feed[k];
      UpgradeFeedStored(s, owners, attached, init, k);
    } else {
      UpgradeFeed(s, owners, attached, init);
      assert Clean(a, s.queue.bridgeIds);
      RecordedStep(s, Run(s, init).queue, owners, feed);
    }
  }

  lemma {:induction false} UpgradeFeedTask(s: SendState, owners: seq<Owner>, attached: seq<Owner>, feed: seq<Ack>,
                                           i: nat)
    requires Fresh(s, owners, attached) && CleanFeed(feed, s.queue.bridgeIds) && UpgradeOnly(feed, s.queue.bridgeIds)
    requires i < |s.tasks| && TaskAgrees(s.queue, s.tasks[i])
    ensures |Run(s, feed).tasks| == |s.tasks| && TaskAgrees(Run(s, feed).queue, Run(s, feed).tasks[i])
  {
    if feed != [] {
      var init, a := feed[..|feed| - 1], feed[|feed| - 1];
      AckedPrefix(feed, s.queue.bridgeIds);
      UpgradeFeed(s, owners, attached, init);
      UpgradeFeedTask(s, owners, attached, init, i);
      assert Clean(a, s.queue.bridgeIds);
      RecordedStep(s, Run(s, init).queue, owners, feed);
      TaskAgreesSync(Run(s, init), owners, a, i);
    }
  }

  lemma FoldIsResult(s: SendState, q: QueueItem, owners: seq<Owner>, feed: seq<Ack>)
    requires QueueSide(q, owners) && Recorded(s, q, feed)
    ensures IsResult(q.status, s, feed)
  {
    LocalStatusesDelivery(PartsOf(q.details), q.bridgeIds, owners);
    FoldMembers(q.bridgeIds, q.acks, Local(q));
    AggregateQueueIsMeet(q.bridgeIds, q.acks, Local(q));
    assert forall x :: InResult(x, s, feed) <==> InFold(x, q.bridgeIds, q.acks, Local(q));
  }

  /** After an upgrade-only feed, queue item, ledger record and task all show the least of the last
      acks and the local statuses. */
  lemma ConvergesToMeet(s: SendState, owners: seq<Owner>, attached: seq<Owner>, feed: seq<Ack>, i: nat)
    requires Fresh(s, owners, attached) && CleanFeed(feed, s.queue.bridgeIds) && UpgradeOnly(feed, s.queue.bridgeIds)
    requires i < |s.tasks| && TaskAgrees(s.queue, s.tasks[i])
    ensures var t := Run(s, feed);
            && IsResult(t.queue.status, s, feed)
            && t.ledger.top.status == t.queue.status
            && |t.tasks| == |s.tasks| && t.tasks[i].status == TaskOf(t.queue.status)
  {
    UpgradeFeed(s, owners, attached, feed);
    UpgradeFeedTask(s, owners, attached, feed, i);
    FeedInStep(s, owners, attached, feed);
    FoldIsResult(s, Run(s, feed).queue, owners, feed);
  }

  /** Two feeds with the same last ack per id, in any interleaving and with any repetitions, leave
      queue, ledger and task with the same statuses. */
  lemma OrderDoesNotMatter(s: SendState, owners: seq<Owner>, attached: seq<Owner>, f: seq<Ack>, g: seq<Ack>, i: nat)
    requires Fresh(s, owners, attached) && SameLastAcks(f, g, s.queue.bridgeIds)
    requires CleanFeed(f, s.queue.bridgeIds) && UpgradeOnly(f, s.queue.bridgeIds)
    requires CleanFeed(g, s.queue.bridgeIds) && UpgradeOnly(g, s.queue.bridgeIds)
    requires i < |s.tasks| && TaskAgrees(s.queue, s.tasks[i])
    ensures var t, u := Run(s, f), Run(s, g);
            && t.queue.status == u.queue.status && t.ledger.top.status == u.ledger.top.status
            && |t.tasks| == |u.tasks| == |s.tasks| && t.tasks[i].status == u.tasks[i].status
  {
    ConvergesToMeet(s, owners, attached, f, i);
    ConvergesToMeet(s, owners, attached, g, i);
    ResultDelivery(s, owners, attached, f);
    ResultDelivery(s, owners, attached, g);
    SameResult(Run(s, f).queue.status, Run(s, g).queue.status, s, f, g);
  }

  lemma SameResult(m: Status, n: Status, s: SendState, f: seq<Ack>, g: seq<Ack>)
    requires SameLastAcks(f, g, s.queue.bridgeIds) && IsResult(m, s, f)
    requires IsResult(n, s, g) && Delivery(m) && Delivery(n)
    ensures m == n
  {
    assert InResult(m, s, g) && InResult(n, s, f);
    assert Rank(m) == Rank(n);
  }

  lemma ResultDelivery(s: SendState, owners: seq<Owner>, attached: seq<Owner>, feed: seq<Ack>)
    requires Fresh(s, owners, attached) && CleanFeed(feed, s.queue.bridgeIds)
    ensures Delivery(Run(s, feed).queue.status)
  {
    FeedInStep(s, owners, attached, feed);
    var q := Run(s, feed).queue;
    LocalStatusesDelivery(PartsOf(q.details), q.bridgeIds, owners);
    AggregateQueueIsMeet(q.bridgeIds, q.acks, Local(q));
  }
}
