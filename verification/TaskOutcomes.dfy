/** What an ack makes of a task, in terms of what the task records. */
module TaskOutcomes {
  import opened SendParts
  import opened QueueProjection
  import opened TaskProjection
  import opened SummaryTexts
  import opened RetryFencing
  import opened LockStep
  import I = ItemOutcomes

  /** A task is found under every id that one of its fields or one of its three texts holds. */
  lemma FoundExactly(t: SendTask, id: BridgeId)
    ensures TaskReferences(t, id)
            <==> || id in {t.externalId, t.bridgeId, t.lastAckId} || id in t.bridgeIds || id in t.acks
                 || Mentions(t.detail, id) || Mentions(t.lastError, id) || Mentions(t.sendReason, id)
  {
    var two, all := t.detail + [' '] + t.lastError, t.detail + " " + t.lastError + " " + t.sendReason;
    assert two + [' '] + t.sendReason == all;
    if Mentions(t.detail, id) { MentionsWithin(t.detail, "", " " + t.lastError, id); }
    if Mentions(t.lastError, id) { MentionsWithin(t.lastError, t.detail + " ", "", id); }
    assert "" + t.detail + (" " + t.lastError) == two && t.detail + " " + t.lastError + "" == two;
    if Mentions(two, id) { MentionsWithin(two, "", " " + t.sendReason, id); }
    if Mentions(t.sendReason, id) { MentionsWithin(t.sendReason, two + " ", "", id); }
    assert "" + two + (" " + t.sendReason) == all && two + " " + t.sendReason + "" == all;
    if !Mentions(t.detail, id) && !Mentions(t.lastError, id) { JoinMentions(t.detail, ' ', t.lastError, id); }
    if !Mentions(two, id) && !Mentions(t.sendReason, id) { JoinMentions(two, ' ', t.sendReason, id); }
  }

  /** After the ack some expected id is recorded with the status. */
  ghost predicate Recorded(t: SendTask, a: Ack, s: Status) {
    || I.RecordsAs(a.status, s)
    || exists b | b in t.bridgeIds && b != a.id :: RecordedStatus(t.acks, b) == s
  }

  ghost predicate Known(t: SendTask, a: Ack, s: Status) {
    Recorded(t, a, s) || LocalPart(t, s)
  }

  lemma RecordedInFold(t: SendTask, a: Ack, s: Status)
    ensures InFold(s, TaskExpectedIds(t, a), AcksWith(t.acks, a), TaskLocal(t))
            <==> Known(t, a, s)
  {
    var ids, acks := TaskExpectedIds(t, a), AcksWith(t.acks, a);
    assert a.id in t.bridgeIds + [a.id];
    assert a.id in ids && RecordedStatus(acks, a.id) == Mapped(a.status);
    forall b | b in t.bridgeIds && b != a.id ensures b in ids && RecordedStatus(acks, b) == RecordedStatus(t.acks, b) {
      assert b in t.bridgeIds + [a.id];
    }
    if b: BridgeId :| b in ids && RecordedStatus(acks, b) == s { assert b in t.bridgeIds + [a.id]; }
  }

  lemma AggregateExactly(t: SendTask, a: Ack)
    requires TerminalAcks(t.acks)
    ensures TaskAggregate(t, a)
            == if Known(t, a, Failed) then Failed
               else if Known(t, a, Queued) then Queued
               else if Known(t, a, Accepted) then Accepted
               else Sent
  {
    var ids := TaskExpectedIds(t, a);
    ListExactly(t.bridgeIds, a.id);
    if |ids| > 1 || TaskLocal(t) != [] {
      KnownInFold(t, a, Failed);
      KnownInFold(t, a, Queued);
      KnownInFold(t, a, Accepted);
      I.LastIsRecorded(ids, AcksWith(t.acks, a), TaskLocal(t));
    } else {
      OnlyTheAck(t, a);
    }
  }

  lemma OnlyOne(r: seq<BridgeId>, ids: seq<BridgeId>, id: BridgeId)
    requires |r| == 1 && id in r && forall b | b in ids :: b in r
    ensures forall b | b in ids :: b == id
  {
  }

  lemma OnlyTheAck(t: SendTask, a: Ack)
    requires |TaskExpectedIds(t, a)| == 1 && TaskLocal(t) == []
    ensures forall s :: Known(t, a, s) <==> I.RecordsAs(a.status, s)
  {
    ListExactly(t.bridgeIds, a.id);
    OnlyOne(TaskExpectedIds(t, a), t.bridgeIds, a.id);
    forall s ensures Known(t, a, s) <==> I.RecordsAs(a.status, s) { NoLocalPart(t, s); }
  }

  lemma NoLocalPart(t: SendTask, s: Status)
    requires TaskLocal(t) == []
    ensures !LocalPart(t, s)
  {
    TaskLocalExact(t);
  }

  lemma KnownInFold(t: SendTask, a: Ack, s: Status)
    ensures s in TaskLocal(t) + RecordedStatuses(TaskExpectedIds(t, a), AcksWith(t.acks, a)) <==> Known(t, a, s)
  {
    RecordedInFold(t, a, s);
    FoldMembers(TaskExpectedIds(t, a), AcksWith(t.acks, a), TaskLocal(t));
  }

  /** A completed task stays completed.  Any other is failed when anything is recorded or known to have failed;
      else it waits, unless it was terminal before, while anything is queued; and else it is completed. */
  lemma TaskStatusExactly(t: SendTask, a: Ack)
    requires TaskReferences(t, a.id) && TerminalAcks(t.acks)
    ensures var failed, queued := Known(t, a, Failed), Known(t, a, Queued);
            TaskAfter(t, a).status
            == if t.status == TaskCompleted then TaskCompleted
               else if failed then TaskFailed
               else if queued && t.status in {TaskFailed, TaskCancelled} then t.status
               else if queued then TaskQueued
               else TaskCompleted
  {
    AggregateExactly(t, a);
  }

  /** A local failure fails every task that is not completed yet. */
  lemma LocalFailureFails(t: SendTask, a: Ack)
    requires TaskReferences(t, a.id) && t.status != TaskCompleted
    requires Failed in t.localStatuses || (t.localStatuses == [] && t.sendFailed)
    ensures TaskAfter(t, a).status == TaskFailed
  {
    assert Failed in TaskLocal(t);
    LocalFailureWins(t, a);
  }

  lemma LocalFailureWins(t: SendTask, a: Ack)
    requires Failed in TaskLocal(t)
    ensures TaskAggregate(t, a) == Failed
  {
    FailedWins(TaskExpectedIds(t, a), AcksWith(t.acks, a), TaskLocal(t));
  }

  lemma FailedWins(ids: seq<BridgeId>, acks: map<BridgeId, AckRecord>, local: seq<Status>)
    requires Failed in local
    ensures AggregateQueue(ids, acks, local) == Failed
  {
    assert Failed in local + RecordedStatuses(ids, acks);
  }

  /** With all ids acked sent, a task whose local parts were sent is completed. */
  lemma AllSentCompletes(t: SendTask, a: Ack)
    requires TaskReferences(t, a.id) && TerminalAcks(t.acks) && a.status == AckSent
    requires forall b | b in t.bridgeIds && b != a.id :: b in t.acks && t.acks[b].status == Sent
    requires if t.localStatuses == [] then !t.sendFailed else forall s | s in t.localStatuses :: s == Sent
    ensures TaskAfter(t, a).status == TaskCompleted
  {
    OnlySent(t, a, Failed);
    OnlySent(t, a, Queued);
    OnlySent(t, a, Accepted);
    TaskStatusExactly(t, a);
  }

  lemma OnlySent(t: SendTask, a: Ack, s: Status)
    requires a.status == AckSent && s != Sent
    requires forall b | b in t.bridgeIds && b != a.id :: b in t.acks && t.acks[b].status == Sent
    requires if t.localStatuses == [] then !t.sendFailed else forall s | s in t.localStatuses :: s == Sent
    ensures !Known(t, a, s)
  {
  }

  // ---------------------------------------------------------------- the fields

  lemma ListExactly(ids: seq<BridgeId>, id: BridgeId)
    ensures var r := Dedupe(ids + [id]);
            && r != [] && Distinct(r) && (forall b :: b in r <==> b in ids || b == id) && (Distinct(ids) ==> ids <= r)
  {
    assert forall b :: b in ids + [id] <==> b in ids || b == id;
    assert id in ids + [id];
    if id in ids { DedupeSnoc(ids, id); } else if Distinct(ids) { assert Distinct(ids + [id]); }
  }

  /** An ack is recorded under its id and nowhere else; the list gets the id at its end, if it is new. */
  lemma AckRecorded(t: SendTask, a: Ack)
    requires TaskReferences(t, a.id)
    ensures var acks := TaskAfter(t, a).acks;
            && a.id in acks && I.RecordsAs(a.status, acks[a.id].status) && acks[a.id].reason == a.reason
            && acks - {a.id} == t.acks - {a.id}
    ensures Distinct(TaskAfter(t, a).bridgeIds)
    ensures forall b :: b in TaskAfter(t, a).bridgeIds <==> b in t.bridgeIds || b == a.id
    ensures Distinct(t.bridgeIds) ==> t.bridgeIds <= TaskAfter(t, a).bridgeIds
  {
    ListExactly(t.bridgeIds, a.id);
  }

  /** The first expected id fills an empty external or bridge id; a task that is terminal is finished. */
  lemma AckedExactly(t: SendTask, a: Ack)
    requires TaskReferences(t, a.id)
    ensures var t' := TaskAfter(t, a);
            && t'.bridgeIds != [] && t'.lastAckId == a.id && t'.sendReason == t.sendReason && SameLocalParts(t, t')
            && t'.externalId == (if t.externalId != "" then t.externalId else t'.bridgeIds[0])
            && t'.bridgeId == (if t.bridgeId != "" then t.bridgeId else t'.bridgeIds[0])
            && (t'.finished <==> t.finished || t'.status in {TaskCompleted, TaskFailed, TaskCancelled})
  {
    ListExactly(t.bridgeIds, a.id);
  }

  /** The ack cannot change the status any more: a completed task is not better off, and a failed or cancelled one is
      not to wait again. */
  ghost predicate Absorbed(t: SendTask, a: Ack) {
    || (t.status == TaskCompleted && (Known(t, a, Failed) || Known(t, a, Queued) || Known(t, a, Accepted)))
    || (t.status in {TaskFailed, TaskCancelled} && Known(t, a, Queued) && !Known(t, a, Failed))
  }

  lemma AbsorbedExactly(t: SendTask, a: Ack)
    requires TerminalAcks(t.acks)
    ensures Absorbed(t, a) <==> (t.status == TaskCompleted && TaskAggregate(t, a) != Sent)
                                || (Terminal(t.status) && TaskAggregate(t, a) == Queued)
  {
    AggregateExactly(t, a);
  }

  /** The text says of every expected id what is known of it, and why or how the local parts ended. */
  ghost predicate Tells(text: string, t: SendTask) {
    && (forall b | b in t.bridgeIds :: I.Says(text, b, t.acks))
    && (t.sendReason != "" && (exists s :: LocalPart(t, s)) ==> I.EndsWith(text, ";local_parts:" + t.sendReason))
    && (t.sendReason == "" ==> forall s | LocalPart(t, s) :: Mentions(text, StatusName(s)))
  }

  /** An absorbed ack leaves a detail in place; any other is told there, and by the error of a failed task. */
  lemma TextsExactly(t: SendTask, a: Ack)
    requires TaskReferences(t, a.id) && TerminalAcks(t.acks)
    ensures var t' := TaskAfter(t, a);
            && (if Absorbed(t, a) && t.detail != "" then t'.detail == t.detail else Tells(t'.detail, t'))
            && t'.lastError == if Absorbed(t, a) then (if t.status == TaskCompleted then "" else t.lastError)
                               else if t'.status == TaskFailed then t'.detail else ""
  {
    AbsorbedExactly(t, a);
    SummaryTells(t, a);
  }

  lemma SummaryTells(t: SendTask, a: Ack)
    requires TerminalAcks(t.acks) && TaskReferences(t, a.id)
    ensures Tells(TaskSummary(t, a), TaskAfter(t, a))
  {
    var ids, acks := TaskExpectedIds(t, a), AcksWith(t.acks, a);
    I.SummariesSay(ids, acks, if t.sendReason != "" then t.sendReason else JoinNames(TaskLocal(t)));
    I.Tail(Summary(ids, acks), ";local_parts:", t.sendReason);
    TaskLocalExact(t);
    forall s | LocalPart(t, s) && t.sendReason == "" ensures Mentions(TaskSummary(t, a), StatusName(s)) {
      NamesAll(TaskLocal(t), s);
      MentionsWithin(JoinNames(TaskLocal(t)), Summary(ids, acks) + ";local_parts:", "", StatusName(s));
      assert Summary(ids, acks) + ";local_parts:" + JoinNames(TaskLocal(t)) + "" == TaskSummary(t, a);
    }
    LocalPartsStay(t, TaskAfter(t, a));
  }

  lemma {:induction false} NamesAll(ss: seq<Status>, s: Status)
    requires s in ss
    ensures Mentions(JoinNames(ss), StatusName(s))
  {
    var name := StatusName(ss[0]);
    if ss[0] == s {
      MentionsItself(name, if |ss| == 1 then "" else "," + JoinNames(ss[1..]));
      if |ss| == 1 { assert name + "" == name; } else { assert name + ("," + JoinNames(ss[1..])) == JoinNames(ss); }
    } else {
      NamesAll(ss[1..], s);
      MentionsWithin(JoinNames(ss[1..]), name + ",", "", StatusName(s));
      assert name + "," + JoinNames(ss[1..]) + "" == JoinNames(ss);
    }
  }

  // ---------------------------------------------------------------- retries

  /** A retry queues every task that a candidate finds, for the given reason and under the new id. */
  lemma RetriedExactly(t: SendTask, op: RetryOp)
    requires exists b | b in op.dead :: TaskReferences(t, b)
    ensures var t' := TaskRetry(t, op);
            && t'.status == TaskQueued && !t'.finished && t'.detail == t'.sendReason == op.reason && t'.lastError == ""
            && t'.lastAckId == (if t.lastAckId in op.dead then "" else t.lastAckId) && SameLocalParts(t, t')
            && (if t.externalId == "" then t'.externalId == op.next else I.Replaced(t.externalId, t'.externalId, op))
            && (if t.bridgeId == "" then t'.bridgeId == op.next else I.Replaced(t.bridgeId, t'.bridgeId, op))
            && I.AcksKept(t.acks, t'.acks, op)
  {
  }

  /** The list holds the other ids, and the new one in place of a candidate or when there is no other. */
  lemma RetriedListExactly(t: SendTask, op: RetryOp)
    requires exists b | b in op.dead :: TaskReferences(t, b)
    ensures forall b | b != op.next :: b in TaskRetry(t, op).bridgeIds <==> b in t.bridgeIds && b !in op.dead
    ensures op.next in TaskRetry(t, op).bridgeIds
            <==> t.bridgeIds == [] || op.next in t.bridgeIds || exists b | b in op.dead :: b in t.bridgeIds
  {
    var ids := ReplaceIds(t.bridgeIds, op.dead, op.next);
    forall b | b != op.next ensures b in ids <==> b in t.bridgeIds && b !in op.dead {
      ReplacedMembers(t.bridgeIds, op.dead, op.next, b);
    }
    NewIdMembers(t.bridgeIds, op.dead, op.next);
    assert TaskRetry(t, op).bridgeIds == if ids == [] then [op.next] else ids;
  }

  lemma NewIdMembers(ids: seq<BridgeId>, dead: set<BridgeId>, next: BridgeId)
    ensures next in ReplaceIds(ids, dead, next) <==> next in ids || exists b | b in dead :: b in ids
    ensures ReplaceIds(ids, dead, next) == [] <==> ids == []
  {
    var r := ReplaceAll(ids, dead, next);
    forall b | b in ids ensures (if b in dead then next else b) in r {
      var i :| 0 <= i < |ids| && ids[i] == b;
      assert r[i] == if b in dead then next else b;
    }
    if next in r { var i :| 0 <= i < |r| && r[i] == next; assert ids[i] in ids; }
    if ids != [] { assert r[0] in r; }
  }

  lemma NotRetried(t: SendTask, op: RetryOp)
    requires forall b | b in op.dead :: !TaskReferences(t, b)
    ensures TaskRetry(t, op) == t
  {
  }
}
