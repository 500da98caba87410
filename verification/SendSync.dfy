/** Folding one terminal ack, or one retry, into the queue item, the ledger record and
    the send tasks of a reply. */
module SendSync {
  import opened SendParts
  import opened QueueProjection
  import opened LedgerProjection
  import opened TaskProjection

  datatype SendState = SendState(queue: QueueItem, ledger: LedgerSend, tasks: seq<SendTask>)

  /** The ledger after an ack.  A refused or missing queue item leaves only the per-part
      update, with the ack's raw status; a preserved item feeds `Sent` to the ledger. */
  function LedgerAfter(q: QueueItem, l: LedgerSend, a: Ack): LedgerSend {
    match ApplyAck(q, a)
    case NotFound => LedgerAck(l, a.id, Raw(a.status), a.reason)
    case Refused => LedgerAck(l, a.id, Raw(a.status), a.reason)
    case Preserved(reason) => LedgerAck(TopSync(l, q.status, reason, a.id), a.id, Sent, reason)
    case Updated(item, reason) => LedgerAck(TopSync(l, item.status, reason, a.id), a.id, Raw(a.status), a.reason)
  }

  /** The ack as the tasks see it: its status is raw, but a preserved item replaces its reason. */
  function TaskAck(q: QueueItem, a: Ack): Ack {
    match ApplyAck(q, a)
    case Preserved(reason) => a.(reason := reason)
    case _ => a
  }

  function TasksAfter(ts: seq<SendTask>, a: Ack): (r: seq<SendTask>)
    ensures |r| == |ts|
    ensures forall i | 0 <= i < |ts| :: r[i] == TaskAfter(ts[i], a)
  {
    seq(|ts|, i requires 0 <= i < |ts| => TaskAfter(ts[i], a))
  }

  function Matching(ts: seq<SendTask>, a: Ack): nat {
    if ts == [] then 0
    else Matching(ts[..|ts| - 1], a) + (if TaskReferences(ts[|ts| - 1], a.id) then 1 else 0)
  }

  /** It is the number of the tasks that the ack's id finds. */
  lemma {:induction false} MatchingExactly(ts: seq<SendTask>, a: Ack)
    ensures Matching(ts, a) == |set i | 0 <= i < |ts| && TaskReferences(ts[i], a.id)|
  {
    var found := set i | 0 <= i < |ts| && TaskReferences(ts[i], a.id);
    if ts != [] {
      var n := |ts| - 1;
      MatchingExactly(ts[..n], a);
      var before := set i | 0 <= i < n && TaskReferences(ts[..n][i], a.id);
      assert found == before + (if TaskReferences(ts[n], a.id) then {n} else {});
    }
  }

  lemma TasksAfterStep(ts: seq<SendTask>, i: nat, a: Ack)
    requires i < |ts|
    ensures TasksAfter(ts[..i + 1], a) == TasksAfter(ts[..i], a) + [TaskAfter(ts[i], a)]
    ensures Matching(ts[..i + 1], a) == Matching(ts[..i], a) + (if TaskReferences(ts[i], a.id) then 1 else 0)
  {
    assert ts[..i + 1][..i] == ts[..i];
  }

  function SyncAck(s: SendState, a: Ack): SendState {
    SendState(QueueAfter(s.queue, a), LedgerAfter(s.queue, s.ledger, a), TasksAfter(s.tasks, TaskAck(s.queue, a)))
  }

  function SyncRetry(s: SendState, op: RetryOp): (r: SendState)
    ensures |r.tasks| == |s.tasks|
  {
    SendState(QueueRetry(s.queue, op), LedgerRetry(s.ledger, op),
              seq(|s.tasks|, i requires 0 <= i < |s.tasks| => TaskRetry(s.tasks[i], op)))
  }

  /** The states a feed of acks leads through, oldest ack first. */
  function Run(s: SendState, feed: seq<Ack>): SendState {
    if feed == [] then s else SyncAck(Run(s, feed[..|feed| - 1]), feed[|feed| - 1])
  }

  // ---------------------------------------------------------------- the stores

  /** The three stores of one reply, updated in place. */
  class SendStores {
    var queue: QueueItem
    var ledger: LedgerSend
    var tasks: seq<SendTask>

    function State(): SendState
      reads this
    {
      SendState(queue, ledger, tasks)
    }

    constructor (s: SendState)
      ensures State() == s
    {
      queue, ledger, tasks := s.queue, s.ledger, s.tasks;
    }

    /** The atomic queue update.  The callback computes the new item and leaves behind the
        status and reasons that the later projections use; the store then refuses a
        transition it does not allow. */
    method UpdateReferencingBridge(a: Ack)
      returns (found: bool, stored: bool, ledgerStatus: Status, ackReason: string, queueReason: string)
      modifies this`queue
      ensures queue == QueueAfter(old(queue), a)
      ensures found == !ApplyAck(old(queue), a).NotFound?
      ensures stored == (ApplyAck(old(queue), a).Updated? || ApplyAck(old(queue), a).Preserved?)
      ensures ApplyAck(old(queue), a).Updated? ==> queueReason == ApplyAck(old(queue), a).reason
      ensures ApplyAck(old(queue), a).Preserved? ==>
                ackReason == queueReason == ApplyAck(old(queue), a).reason && ledgerStatus == Sent
      ensures !ApplyAck(old(queue), a).Preserved? ==> ackReason == a.reason && ledgerStatus == Raw(a.status)
    {
      var item := queue;
      found, stored, ledgerStatus, ackReason, queueReason := false, false, Raw(a.status), a.reason, a.reason;
      if !QueueReferences(item, a.id) { return; }
      found := true;
      var expected := ExpectedIds(item, a);
      var acks := AcksWith(item.acks, a);
      var aggregate;
      aggregate, queueReason := FoldWithAck(item, a, expected, acks);
      if item.status == Sent && aggregate != Sent {
        ledgerStatus := Sent;
        if item.note != "" { ackReason := item.note; }
        queueReason := ackReason;
        stored := true;
        return;
      }
      if !Allowed(item.status, aggregate) { return; }
      var messageId := if item.messageId == "" && |expected| == 1 then expected[0] else item.messageId;
      queue := item.(status := aggregate, note := queueReason, bridgeIds := expected, acks := acks,
                     lastAckId := a.id, messageId := messageId, resultReason := queueReason,
                     details := DetailsWithAck(item.details, expected, a));
      stored := true;
    }

    /** The item's status and reason with the ack: of a single part those of the ack itself. */
    method FoldWithAck(item: QueueItem, a: Ack, expected: seq<BridgeId>, acks: map<BridgeId, AckRecord>)
      returns (aggregate: Status, reason: string)
      requires expected == ExpectedIds(item, a) && acks == AcksWith(item.acks, a)
      ensures aggregate == NextStatus(item, a) && reason == NextReason(item, a)
    {
      var local := LocalStatuses(PartsOf(item.details), expected);
      aggregate, reason := Mapped(a.status), a.reason;
      if |expected| > 1 || local != [] {
        aggregate := AggregateQueue(expected, acks, local);
        reason := Summary(expected, acks);
        if local != [] { reason := reason + ";local_parts:" + LocalReason(item); }
      }
    }

    /** The task store's mutator: walk the task list and rebuild it. */
    method UpdateTasks(a: Ack) returns (matched: nat)
      modifies this`tasks
      ensures tasks == TasksAfter(old(tasks), a)
      ensures matched == Matching(old(tasks), a)
    {
      var current := tasks;
      var next: seq<SendTask> := [];
      matched := 0;
      for i := 0 to |current|
        invariant next == TasksAfter(current[..i], a) && matched == Matching(current[..i], a)
      {
        TasksAfterStep(current, i, a);
        if TaskReferences(current[i], a.id) { matched := matched + 1; }
        next := next + [TaskAfter(current[i], a)];
      }
      assert current[..|current|] == current;
      tasks := next;
    }

    /** Queue first, then the ledger record, then its parts, then the tasks. */
    method SyncBridgeAck(a: Ack)
      modifies this
      ensures State() == SyncAck(old(State()), a)
    {
      var found, stored, ledgerStatus, ackReason, queueReason := UpdateReferencingBridge(a);
      if stored {
        ledger := TopSync(ledger, queue.status, queueReason, a.id);
      }
      ledger := LedgerAck(ledger, a.id, ledgerStatus, ackReason);
      var _ := UpdateTasks(a.(reason := ackReason));
    }

    /** A retry in the order queue, ledger, tasks. */
    method SyncBridgeRetry(op: RetryOp)
      modifies this
      ensures State() == SyncRetry(old(State()), op)
    {
      if QueueReferencesAny(queue, op.dead) && queue.status != Rejected {
        queue := ItemWithRetry(queue, op);
      }
      ledger := LedgerRetry(ledger, op);
      var current := tasks;
      var next: seq<SendTask> := [];
      for i := 0 to |current|
        invariant |next| == i && forall j | 0 <= j < i :: next[j] == TaskRetry(current[j], op)
      {
        next := next + [TaskRetry(current[i], op)];
      }
      tasks := next;
    }
  }
}
