/** What an ack and a retry make of a queue item, in terms of what the item records. */
module ItemOutcomes {
  import opened Wrappers
  import opened SendParts
  import opened QueueProjection
  import opened SummaryTexts
  import opened LockStep
  import opened RetryFencing

  /** How an ack is recorded. */
  predicate RecordsAs(a: AckStatus, s: Status) {
    s == if a == AckSent then Sent else if a == AckAccepted then Accepted else Failed
  }

  /** An item is found under every id that one of its own fields or texts holds, under the ids of its parts' list,
      and under the key of a part: its message id, or the bridge id of a part that has none. */
  lemma FoundExactly(q: QueueItem, id: BridgeId)
    ensures QueueReferences(q, id)
            <==> || id in q.bridgeIds || id in q.acks || id in {q.retryOf, q.lastAckId, q.messageId}
                 || Mentions(q.note, id) || Mentions(q.resultReason, id)
                 || (q.details.Some? && PartFound(q.details.value, id))
  {
  }

  ghost predicate PartFound(d: Details, id: BridgeId) {
    || id in d.ids
    || (exists p | p in d.Parts() :: p.messageId == id || (p.messageId == "" && p.bridgeId == id))
    || (exists p | p in d.files :: Mentions(p.reason, id))
  }

  // ---------------------------------------------------------------- the status

  /** After the ack some expected id is recorded with the status. */
  ghost predicate Recorded(q: QueueItem, a: Ack, s: Status) {
    || RecordsAs(a.status, s)
    || exists b | b in q.bridgeIds && b != a.id :: RecordedStatus(q.acks, b) == s
  }

  /** A part that none of the expected ids finds has the status. */
  ghost predicate LocalPart(q: QueueItem, a: Ack, s: Status) {
    exists p | p in PartsOf(q.details) :: p.status == s && Unbridged(p, q.bridgeIds, a.id)
  }

  ghost predicate Unbridged(p: Part, ids: seq<BridgeId>, id: BridgeId) {
    !References(p, id) && forall b | b in ids :: !References(p, b)
  }

  /** The item fails, waits, or is on its way with the ack. */
  ghost predicate Becomes(q: QueueItem, a: Ack, s: Status) {
    Recorded(q, a, s) || LocalPart(q, a, s)
  }

  lemma Expected(q: QueueItem, a: Ack)
    ensures forall b :: b in ExpectedIds(q, a) <==> b in q.bridgeIds || b == a.id
    ensures a.id in ExpectedIds(q, a) && Distinct(ExpectedIds(q, a))
  {
    assert forall b :: b in q.bridgeIds + [a.id] <==> b in q.bridgeIds || b == a.id;
  }

  lemma LocalExactly(q: QueueItem, a: Ack, s: Status)
    ensures s in LocalStatuses(PartsOf(q.details), ExpectedIds(q, a)) <==> LocalPart(q, a, s)
  {
    var ps, ids := PartsOf(q.details), ExpectedIds(q, a);
    Expected(q, a);
    LocalStatusesExact(ps, ids);
    forall p ensures ReferencesSome(p, ids) <==> !Unbridged(p, q.bridgeIds, a.id) {}
    if LocalPart(q, a, s) {
      var p :| p in ps && p.status == s && Unbridged(p, q.bridgeIds, a.id);
      var i :| 0 <= i < |ps| && ps[i] == p;
      assert !ReferencesSome(ps[i], ids) && ps[i].status == s;
    }
  }

  lemma RecordedExactly(q: QueueItem, a: Ack, s: Status)
    ensures Recorded(q, a, s)
            <==> exists b | b in ExpectedIds(q, a) :: RecordedStatus(AcksWith(q.acks, a), b) == s
  {
    var ids, acks := ExpectedIds(q, a), AcksWith(q.acks, a);
    Expected(q, a);
    assert a.id in ids && RecordedStatus(acks, a.id) == Mapped(a.status);
    forall b | b in q.bridgeIds && b != a.id ensures b in ids && RecordedStatus(acks, b) == RecordedStatus(q.acks, b) {}
  }

  lemma FoldExactly(q: QueueItem, a: Ack)
    requires TerminalAcks(q.acks)
    ensures NextStatus(q, a)
            == if Becomes(q, a, Failed) then Failed
               else if Becomes(q, a, Queued) then Queued
               else if Becomes(q, a, Accepted) then Accepted
               else Sent
  {
    var ids, acks := ExpectedIds(q, a), AcksWith(q.acks, a);
    var local := LocalStatuses(PartsOf(q.details), ids);
    Expected(q, a);
    forall s ensures (s in local <==> LocalPart(q, a, s)) {
      LocalExactly(q, a, s);
    }
    forall s ensures Becomes(q, a, s) <==> InFold(s, ids, acks, local) {
      RecordedExactly(q, a, s);
    }
    FoldMembers(ids, acks, local);
    if |ids| > 1 || local != [] {
      LastIsRecorded(ids, acks, local);
    } else {
      assert ids == [a.id];
    }
  }

  /** Whatever local parts show, with no failed, queued or accepted status in it the fold is sent. */
  lemma LastIsRecorded(ids: seq<BridgeId>, acks: map<BridgeId, AckRecord>, local: seq<Status>)
    requires ids != [] && TerminalAcks(acks)
    ensures var all := local + RecordedStatuses(ids, acks);
            AggregateQueue(ids, acks, local)
            == if Failed in all then Failed
               else if Queued in all then Queued
               else if Accepted in all then Accepted
               else Sent
  {
    var all := local + RecordedStatuses(ids, acks);
    var last := RecordedStatus(acks, ids[|ids| - 1]);
    assert all[|all| - 1] == last && last in all;
  }

  /** Which way to a delivery status is barred. */
  lemma AllowedExactly(current: Status, next: Status)
    requires Delivery(next)
    ensures !Allowed(current, next)
            <==> || current in {Pending, Rejected, Blocked} || (current == Sent && next != Sent)
                 || (current in {Accepted, Failed} && next == Queued)
  {
  }

  lemma VerdictOnDelivery(q: QueueItem, a: Ack)
    requires QueueReferences(q, a.id) && Delivery(NextStatus(q, a))
    ensures ApplyAck(q, a).Preserved? <==> q.status == Sent && NextStatus(q, a) != Sent
    ensures ApplyAck(q, a).Refused?
            <==> q.status in {Pending, Rejected, Blocked}
                 || (q.status in {Accepted, Failed} && NextStatus(q, a) == Queued)
    ensures !ApplyAck(q, a).NotFound?
  {
    AllowedExactly(q.status, NextStatus(q, a));
  }

  /** An item that is sent and would get worse is preserved.  An accepted or failed item refuses to wait again, and
      an item that is not approved, or that was rejected, refuses every ack. */
  lemma OutcomeExactly(q: QueueItem, a: Ack)
    requires QueueReferences(q, a.id) && TerminalAcks(q.acks)
    ensures ApplyAck(q, a).Preserved?
            <==> q.status == Sent && (Becomes(q, a, Failed) || Becomes(q, a, Queued) || Becomes(q, a, Accepted))
    ensures ApplyAck(q, a).Refused?
            <==> q.status in {Pending, Rejected, Blocked}
                 || (q.status in {Accepted, Failed} && Becomes(q, a, Queued) && !Becomes(q, a, Failed))
    ensures !ApplyAck(q, a).NotFound?
  {
    FoldExactly(q, a);
    VerdictOnDelivery(q, a);
  }

  // ---------------------------------------------------------------- the fields

  /** The parts that the id finds have the status and the reason; nothing else of them changed. */
  ghost predicate PartsAcked(ps: seq<Part>, after: seq<Part>, id: BridgeId, status: Status, reason: string) {
    |after| == |ps| && forall i | 0 <= i < |ps| ::
      after[i] == if References(ps[i], id) then ps[i].(status := status, reason := reason) else ps[i]
  }

  ghost predicate DetailsAcked(d: Option<Details>, after: Option<Details>, ids: seq<BridgeId>, a: Ack) {
    && after.Some? == d.Some?
    && (d.Some? ==>
          && after.value.ids == ids && after.value.text.Some? == d.value.text.Some?
          && forall s | RecordsAs(a.status, s) :: PartsAcked(d.value.Parts(), after.value.Parts(), a.id, s, a.reason))
  }

  lemma SingleExactly(q: QueueItem, a: Ack)
    ensures |ExpectedIds(q, a)| == 1 <==> forall b | b in q.bridgeIds :: b == a.id
    ensures |ExpectedIds(q, a)| == 1 ==> ExpectedIds(q, a) == [a.id]
  {
    var ids := ExpectedIds(q, a);
    Expected(q, a);
    if |ids| > 1 { assert ids[0] != ids[1] && ids[0] in ids && ids[1] in ids; }
    if |ids| == 1 { forall b | b in q.bridgeIds ensures b == a.id { assert b in ids; } }
  }

  ghost predicate AckIsStored(q: QueueItem, item: QueueItem, a: Ack) {
    && a.id in item.acks && RecordsAs(a.status, item.acks[a.id].status) && item.acks[a.id].reason == a.reason
    && item.acks - {a.id} == q.acks - {a.id}
    && DetailsAcked(q.details, item.details, item.bridgeIds, a)
  }

  lemma StoredThere(q: QueueItem, a: Ack)
    requires ApplyAck(q, a).Updated?
    ensures AckIsStored(q, QueueAfter(q, a), a)
  {
    AckIsPut(q.acks, a);
    DetailsStored(q.details, ExpectedIds(q, a), a);
  }

  lemma AckIsPut(acks: map<BridgeId, AckRecord>, a: Ack)
    ensures var after := AcksWith(acks, a);
            && a.id in after && RecordsAs(a.status, after[a.id].status) && after[a.id].reason == a.reason
            && after - {a.id} == acks - {a.id}
  {
  }

  lemma PartsStored(ps: seq<Part>, id: BridgeId, status: Status, reason: string)
    ensures PartsAcked(ps, AckParts(ps, id, status, reason), id, status, reason)
  {
  }

  lemma DetailsStored(d: Option<Details>, ids: seq<BridgeId>, a: Ack)
    ensures DetailsAcked(d, DetailsWithAck(d, ids, a), ids, a)
  {
    if d.Some? { PartsStored(d.value.(ids := ids).Parts(), a.id, Mapped(a.status), a.reason); }
  }

  /** A stored ack is recorded under its id and nowhere else, in the item and in the parts that it finds. */
  lemma StoredExactly(q: QueueItem, a: Ack)
    requires ApplyAck(q, a).Updated?
    ensures var item, single := QueueAfter(q, a), forall b | b in q.bridgeIds :: b == a.id;
            && item.note == item.resultReason == ApplyAck(q, a).reason
            && item.lastAckId == a.id && item.retryOf == q.retryOf
            && item.messageId == (if q.messageId != "" then q.messageId else if single then a.id else "")
    ensures AckIsStored(q, QueueAfter(q, a), a)
    ensures Distinct(QueueAfter(q, a).bridgeIds)
    ensures forall b :: b in QueueAfter(q, a).bridgeIds <==> b in q.bridgeIds || b == a.id
  {
    Expected(q, a);
    SingleExactly(q, a);
    StoredThere(q, a);
  }

  /** What is not stored changes nothing, and a preserved item answers with its note. */
  lemma NotStoredExactly(q: QueueItem, a: Ack)
    requires !ApplyAck(q, a).Updated?
    ensures QueueAfter(q, a) == q
    ensures ApplyAck(q, a).Preserved? ==> ApplyAck(q, a).reason == if q.note != "" then q.note else a.reason
    ensures ApplyAck(q, a).NotFound? <==> !QueueReferences(q, a.id)
  {
  }

  // ---------------------------------------------------------------- the note

  /** What is known of an id. */
  ghost function Line(id: BridgeId, acks: map<BridgeId, AckRecord>): string {
    var status := if id !in acks || acks[id].status == Queued then "queued_to_bridge"
                  else if acks[id].status == Sent then "sent"
                  else if acks[id].status == Accepted then "accepted"
                  else "failed";
    var reason := if id in acks && acks[id].reason != "" then acks[id].reason else "pending_bridge_ack";
    id + (":" + status + ":" + reason)
  }

  ghost predicate Says(text: string, id: BridgeId, acks: map<BridgeId, AckRecord>) {
    Mentions(text, Line(id, acks))
  }

  ghost predicate EndsWith(text: string, tail: string) {
    |tail| <= |text| && text[|text| - |tail|..] == tail
  }

  lemma LineReported(b: BridgeId, acks: map<BridgeId, AckRecord>)
    requires TerminalAcks(acks)
    ensures b + Report(b, acks) == Line(b, acks)
  {
  }

  lemma {:induction false} JoinSays(ids: seq<BridgeId>, acks: map<BridgeId, AckRecord>, b: BridgeId)
    requires b in ids && TerminalAcks(acks)
    ensures Says(JoinParts(ids, acks), b, acks)
  {
    var first := ids[0] + Report(ids[0], acks);
    if |ids| > 1 { JoinedMore(ids, acks); } else { JoinedLast(ids, acks); }
    if ids[0] == b {
      LineReported(b, acks);
      MentionsItself(first, if |ids| > 1 then ";" + JoinParts(ids[1..], acks) else "");
      if |ids| > 1 { SemicolonBetween(first, JoinParts(ids[1..], acks)); } else { assert first + "" == first; }
    } else {
      assert b in ids[1..];
      JoinSays(ids[1..], acks, b);
      ToldLater(first, JoinParts(ids[1..], acks), Line(b, acks));
    }
  }

  lemma SummarySays(ids: seq<BridgeId>, acks: map<BridgeId, AckRecord>, b: BridgeId)
    requires b in ids && TerminalAcks(acks)
    ensures Says(Summary(ids, acks), b, acks)
  {
    JoinSays(ids, acks, b);
    MentionsWithin(JoinParts(ids, acks), "bridge_ack_parts:", "", Line(b, acks));
    assert "bridge_ack_parts:" + JoinParts(ids, acks) + "" == "bridge_ack_parts:" + JoinParts(ids, acks);
  }

  lemma SaysBefore(text: string, tail: string, b: BridgeId, acks: map<BridgeId, AckRecord>)
    requires Says(text, b, acks)
    ensures Says(text + tail, b, acks)
  {
    ToldFirst(text, tail, Line(b, acks));
  }

  lemma Tail(text: string, mark: string, tail: string)
    ensures EndsWith(text + mark + tail, mark + tail)
  {
    assert text + mark + tail == text + (mark + tail);
  }

  lemma SummariesSay(ids: seq<BridgeId>, acks: map<BridgeId, AckRecord>, tail: string)
    requires TerminalAcks(acks)
    ensures forall b | b in ids :: Says(Summary(ids, acks), b, acks)
    ensures forall b | b in ids :: Says(Summary(ids, acks) + ";local_parts:" + tail, b, acks)
  {
    var summary := Summary(ids, acks);
    forall b | b in ids ensures Says(summary, b, acks) && Says(summary + ";local_parts:" + tail, b, acks) {
      SummarySays(ids, acks, b);
      SaysBefore(summary, ";local_parts:", b, acks);
      SaysBefore(summary + ";local_parts:", tail, b, acks);
    }
  }

  lemma LocalOrNot(q: QueueItem, a: Ack)
    ensures LocalStatuses(PartsOf(q.details), ExpectedIds(q, a)) != [] <==> exists s :: LocalPart(q, a, s)
  {
    var local := LocalStatuses(PartsOf(q.details), ExpectedIds(q, a));
    forall s ensures s in local <==> LocalPart(q, a, s) { LocalExactly(q, a, s); }
    assert local != [] ==> local[0] in local;
  }

  /** The note of a reply whose only part is the acked one is the ack's reason.  Any other note says of every
      expected id what is known of it, and with a local part it ends with the last recorded result. */
  lemma NoteSays(q: QueueItem, a: Ack)
    requires TerminalAcks(q.acks) && ApplyAck(q, a).Updated?
    ensures var item := QueueAfter(q, a);
            if item.bridgeIds == [a.id] && forall s :: !LocalPart(q, a, s) then item.note == a.reason
            else forall b | b in item.bridgeIds :: Says(item.note, b, item.acks)
    ensures (exists s :: LocalPart(q, a, s)) ==>
              EndsWith(QueueAfter(q, a).note,
                       ";local_parts:" + if q.resultReason != "" then q.resultReason else "local_part_failed")
  {
    var ids, acks := ExpectedIds(q, a), AcksWith(q.acks, a);
    Expected(q, a);
    SingleExactly(q, a);
    LocalOrNot(q, a);
    SummariesSay(ids, acks, LocalReason(q));
    Tail(Summary(ids, acks), ";local_parts:", LocalReason(q));
  }

  // ---------------------------------------------------------------- retries

  /** The ids of the parts that a candidate finds are replaced, and those parts wait again for the given reason. */
  ghost predicate PartsRetried(ps: seq<Part>, after: seq<Part>, op: RetryOp) {
    |after| == |ps| && forall i | 0 <= i < |ps| ::
      if exists b | b in op.dead :: References(ps[i], b) then
        && after[i].status == Queued && after[i].reason == op.reason
        && Replaced(ps[i].messageId, after[i].messageId, op) && Replaced(ps[i].bridgeId, after[i].bridgeId, op)
        && Replaced(ps[i].externalId, after[i].externalId, op)
      else after[i] == ps[i]
  }

  predicate Replaced(field: string, after: string, op: RetryOp) {
    after == if field in op.dead then op.next else field
  }

  /** Every recorded ack stays, except those of the candidates and of the new id. */
  ghost predicate AcksKept(acks: map<BridgeId, AckRecord>, after: map<BridgeId, AckRecord>, op: RetryOp) {
    after == acks - (op.dead + {op.next})
  }

  lemma PartsRewritten(ps: seq<Part>, op: RetryOp)
    ensures PartsRetried(ps, RetryParts(ps, op.dead, op.next, op.reason), op)
  {
  }

  /** A retry finds an item that is not rejected under any candidate.  The item waits again, unless the ack of
      another expected id failed it, for the given reason and with the given parent; all else follows the ids. */
  lemma RetriedExactly(q: QueueItem, op: RetryOp)
    requires q.status != Rejected && (exists b | b in op.dead :: QueueReferences(q, b))
    ensures var item := QueueRetry(q, op);
            && item.note == item.resultReason == op.reason && item.retryOf == op.parent && item.lastAckId == ""
            && Replaced(q.messageId, item.messageId, op) && AcksKept(q.acks, item.acks, op)
            && item.details.Some? == q.details.Some?
            && (q.details.Some? ==> item.details.value.text.Some? == q.details.value.text.Some?)
            && PartsRetried(PartsOf(q.details), PartsOf(item.details), op)
    ensures forall b :: b in QueueRetry(q, op).bridgeIds <==> b == op.next || (b in q.bridgeIds && b !in op.dead)
    ensures QueueRetry(q, op).status
            == if exists b | b in q.bridgeIds :: b in QueueRetry(q, op).acks && q.acks[b].status == Failed then Failed
               else Queued
  {
    PartsRewritten(PartsOf(q.details), op);
    IdsRetried(q.bridgeIds, op);
    RequeuedExactly(RetryIds(q.bridgeIds, op.dead, op.next), KeepAcks(q.acks, op), op.next);
  }

  lemma IdsRetried(ids: seq<BridgeId>, op: RetryOp)
    ensures forall b :: b in RetryIds(ids, op.dead, op.next) <==> b == op.next || (b in ids && b !in op.dead)
  {
    RetryIdsExact(ids, op);
    forall b | b != op.next
      ensures b in RetryIds(ids, op.dead, op.next) <==> b in ids && b !in op.dead
    {
      ReplacedMembers(ids, op.dead, op.next, b);
    }
  }

  lemma RequeuedExactly(ids: seq<BridgeId>, acks: map<BridgeId, AckRecord>, next: BridgeId)
    requires next in ids && next !in acks
    ensures AggregateRequeued(ids, acks)
            == if exists b | b in ids :: b in acks && acks[b].status == Failed then Failed else Queued
  {
    var r := RecordedStatuses(ids, acks);
    assert RecordedStatus(acks, next) == Queued;
    if Failed in r { var i :| 0 <= i < |r| && r[i] == Failed; assert ids[i] in acks; }
    forall b | b in ids ensures RecordedStatus(acks, b) in r {
      var i :| 0 <= i < |ids| && ids[i] == b;
      assert r[i] == RecordedStatus(acks, b);
    }
  }

  lemma NotRetried(q: QueueItem, op: RetryOp)
    requires q.status == Rejected || forall b | b in op.dead :: !QueueReferences(q, b)
    ensures QueueRetry(q, op) == q
  {
  }
}
