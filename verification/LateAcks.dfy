/** A late ack for a superseded id meets a reply whose copies are in step: when it is taken, when the two
    statuses differ afterwards, and when the relation is lost. */
module LateAcks {
  import opened Wrappers
  import opened SendParts
  import opened QueueProjection
  import opened LedgerProjection
  import opened SendSync
  import opened LockStep
  import opened LockStepRuns
  import opened RetryFencing

  /** The id appears nowhere in the parts. */
  predicate Unused(ps: seq<Part>, id: BridgeId) {
    forall i | 0 <= i < |ps| :: !References(ps[i], id)
  }

  /** The id is fenced, and no part of the queue's copy knows it. */
  ghost predicate Late(s: SendState, id: BridgeId) {
    Fenced(s, id) && Unused(PartsOf(s.queue.details), id)
  }

  /** Right after a retry every superseded id is late. */
  lemma RetryMakesLate(s: SendState, op: RetryOp, b: BridgeId)
    requires Excluded(b, op) && b in op.dead && s.queue.status != Rejected && QueueReferencesAny(s.queue, op.dead)
    ensures Late(SyncRetry(s, op), b)
  {
    FencedStep(s, op, b);
    PartsFenced(PartsOf(s.queue.details), op, b);
  }

  /** The item takes the ack: its id is the retry parent, and the item is sent already or may go over to
      the new fold. */
  predicate LateTaken(q: QueueItem, a: Ack) {
    q.retryOf == a.id && (q.status == Sent || Allowed(q.status, NextStatus(q, a)))
  }

  lemma UnreferencedParts(ps: seq<Part>, id: BridgeId, status: Status, reason: string)
    requires !ReferencedIn(ps, id)
    ensures AckParts(ps, id, status, reason) == ps
  {
    forall i | 0 <= i < |ps| ensures AckParts(ps, id, status, reason)[i] == ps[i] { assert !References(ps[i], id); }
  }

  // ---------------------------------------------------------------- the new fold

  lemma SameReferences(p: Part, ids: seq<BridgeId>, id: BridgeId)
    requires !References(p, id)
    ensures ReferencesSome(p, ids + [id]) <==> ReferencesSome(p, ids)
  {
    if ReferencesSome(p, ids) {
      var b :| b in ids && References(p, b);
      assert b in ids + [id];
    }
  }

  lemma SameLocalStatuses(ps: seq<Part>, ids: seq<BridgeId>, id: BridgeId)
    requires Unused(ps, id)
    ensures LocalStatuses(ps, ids + [id]) == LocalStatuses(ps, ids)
  {
    forall i | 0 <= i < |ps| { SameReferences(ps[i], ids, id); }
    LocalStatusesStable(ps, ids, ps, ids + [id]);
  }

  function Lesser(s: Status, t: Status): Status {
    if Rank(s) <= Rank(t) then s else t
  }

  /** One more ack in a fold. */
  lemma FoldWithOneMore(ids: seq<BridgeId>, acks: map<BridgeId, AckRecord>, local: seq<Status>, a: Ack)
    requires ids != [] && a.id !in ids && TerminalAcks(acks) && forall s | s in local :: Delivery(s)
    ensures AggregateQueue(ids + [a.id], AcksWith(acks, a), local)
            == Lesser(AggregateQueue(ids, acks, local), Mapped(a.status))
  {
    var ids', acks' := ids + [a.id], AcksWith(acks, a);
    FoldMembers(ids, acks, local);
    FoldMembers(ids', acks', local);
    AggregateQueueIsMeet(ids, acks, local);
    AggregateQueueIsMeet(ids', acks', local);
    forall s ensures InFold(s, ids', acks', local) <==> InFold(s, ids, acks, local) || s == Mapped(a.status) {
      OneMoreStatus(ids, acks, local, a, s);
    }
    LeastOfMore(AggregateQueue(ids, acks, local), AggregateQueue(ids', acks', local), Mapped(a.status),
                Elements(local + RecordedStatuses(ids, acks)), Elements(local + RecordedStatuses(ids', acks')));
  }

  lemma OneMoreStatus(ids: seq<BridgeId>, acks: map<BridgeId, AckRecord>, local: seq<Status>, a: Ack, s: Status)
    requires a.id !in ids
    ensures InFold(s, ids + [a.id], AcksWith(acks, a), local) <==> InFold(s, ids, acks, local) || s == Mapped(a.status)
  {
    assert RecordedStatus(AcksWith(acks, a), a.id) == Mapped(a.status) && a.id in ids + [a.id];
    forall b | b in ids ensures b in ids + [a.id] && RecordedStatus(AcksWith(acks, a), b) == RecordedStatus(acks, b) {}
  }

  lemma LeastOfMore(m: Status, m': Status, s: Status, S: set<Status>, T: set<Status>)
    requires IsMeet(m, S) && IsMeet(m', T) && T == S + {s}
    requires Delivery(m) && Delivery(m') && Delivery(s)
    ensures m' == Lesser(m, s)
  {
  }

  /** A late ack adds its own status to the fold. */
  lemma LateStatus(q: QueueItem, owners: seq<Owner>, a: Ack)
    requires QueueSide(q, owners) && a.id !in q.bridgeIds && Unused(PartsOf(q.details), a.id)
    ensures NextStatus(q, a) == Lesser(q.status, Mapped(a.status))
    ensures ExpectedIds(q, a) == q.bridgeIds + [a.id] && Delivery(q.status)
  {
    var ids := q.bridgeIds + [a.id];
    assert Distinct(ids);
    SameLocalStatuses(PartsOf(q.details), q.bridgeIds, a.id);
    LocalStatusesDelivery(PartsOf(q.details), q.bridgeIds, owners);
    FoldWithOneMore(q.bridgeIds, q.acks, Local(q), a);
    AggregateQueueIsMeet(q.bridgeIds, q.acks, Local(q));
  }

  // ---------------------------------------------------------------- what a taken late ack does

  /** The queue's verdict on a late ack for the retry parent. */
  lemma LateVerdict(q: QueueItem, a: Ack)
    requires q.retryOf == a.id
    ensures ApplyAck(q, a).Preserved? <==> q.status == Sent && NextStatus(q, a) != Sent
    ensures ApplyAck(q, a).Updated? <==> LateTaken(q, a) && !(q.status == Sent && NextStatus(q, a) != Sent)
    ensures ApplyAck(q, a).Updated? ==> QueueAfter(q, a) == ItemWithAck(q, a)
    ensures !ApplyAck(q, a).Updated? ==> QueueAfter(q, a) == q
  {
  }

  /** The record is found only because it was given the id just before. */
  lemma LateRecord(l: LedgerSend, id: BridgeId, status: Status, note: string, shown: Status, reason: string)
    requires !LedgerMatches(l, id)
    requires !(l.top.status in {Sent, Accepted, Failed} && status in {Pending, Queued})
    ensures var r := LedgerAck(TopSync(l, status, note, id), id, shown, reason);
            && r.top.messageId == id && r.details.Some? == l.details.Some? && PartsOf(r.details) == PartsOf(l.details)
            && r.attachments == l.attachments
            && (l.details.None? ==> r.top.status == shown)
            && (l.details.Some? && AggregateLedger(Statuses(PartsOf(l.details))).Some? ==>
                  r.top.status == AggregateLedger(Statuses(PartsOf(l.details))).value)
  {
    var l' := TopSync(l, status, note, id);
    assert References(l'.top, id);
    UnreferencedParts(PartsOf(l.details), id, shown, reason);
    UnreferencedParts(l.attachments, id, shown, reason);
    LedgerAckFields(l', id, shown, reason);
  }

  /** What the two stores show after a taken late ack: the queue adds the ack's status to its fold; the
      ledger of a multi-part reply still folds its parts, that of a plain one shows the ack itself. */
  lemma LateShown(q: QueueItem, l: LedgerSend, owners: seq<Owner>, attached: seq<Owner>, a: Ack)
    requires InStep(q, l, owners, attached, {}) && LateTaken(q, a)
    requires a.id !in q.bridgeIds && Unused(PartsOf(q.details), a.id) && !LedgerMatches(l, a.id)
    ensures QueueAfter(q, a).status == if q.status == Sent then Sent else Lesser(q.status, Mapped(a.status))
    ensures var r := LedgerAfter(q, l, a);
            && r.top.messageId == a.id && r.details.Some? == l.details.Some? && PartsOf(r.details) == PartsOf(l.details)
            && r.attachments == l.attachments
            && r.top.status == if q.status == Sent || q.details.Some? then q.status else Raw(a.status)
  {
    LateStatus(q, owners, a);
    LateVerdict(q, a);
    if q.details.Some? { AggregatesAgree(q, PartsOf(l.details), owners); }
    if ApplyAck(q, a).Preserved? { LatePreserved(q, l, a); } else { LateStored(q, l, a); }
  }

  lemma LatePreserved(q: QueueItem, l: LedgerSend, a: Ack)
    requires ApplyAck(q, a).Preserved? && !LedgerMatches(l, a.id)
    requires l.details.Some? ==> AggregateLedger(Statuses(PartsOf(l.details))) == Some(Sent)
    ensures QueueAfter(q, a) == q && q.status == Sent
    ensures var r := LedgerAfter(q, l, a);
            && r.top.messageId == a.id && r.details.Some? == l.details.Some? && PartsOf(r.details) == PartsOf(l.details)
            && r.attachments == l.attachments && r.top.status == Sent
  {
    LateRecord(l, a.id, q.status, ApplyAck(q, a).reason, Sent, ApplyAck(q, a).reason);
  }

  lemma LateStored(q: QueueItem, l: LedgerSend, a: Ack)
    requires ApplyAck(q, a).Updated? && !LedgerMatches(l, a.id) && l.top.status == q.status
    requires q.status in {Accepted, Failed} ==> NextStatus(q, a) !in {Pending, Queued}
    requires q.status == Sent ==> NextStatus(q, a) == Sent
    requires l.details.Some? ==> AggregateLedger(Statuses(PartsOf(l.details))) == Some(q.status)
    ensures QueueAfter(q, a).status == NextStatus(q, a)
    ensures var r := LedgerAfter(q, l, a);
            && r.top.messageId == a.id && r.details.Some? == l.details.Some? && PartsOf(r.details) == PartsOf(l.details)
            && r.attachments == l.attachments
            && r.top.status == if l.details.Some? then q.status else Raw(a.status)
  {
    ItemFields(q, a);
    LateRecord(l, a.id, NextStatus(q, a), ApplyAck(q, a).reason, Raw(a.status), a.reason);
  }

  /** When a late ack separates queue and ledger.  Copies that agree still do if and only if the ack is not
      taken, or the item is sent, or the parts of a multi-part reply are not better than the ack, or the
      ack of a plain reply is not blocked and not better than what the reply shows. */
  lemma LateAckSplits(s: SendState, owners: seq<Owner>, attached: seq<Owner>, a: Ack)
    requires InStep(s.queue, s.ledger, owners, attached, {}) && Late(s, a.id)
    ensures var q, t := s.queue, SyncAck(s, a);
            t.queue.status == t.ledger.top.status
            <==> || !LateTaken(q, a) || q.status == Sent
                 || (q.details.Some? && Rank(q.status) <= Rank(Mapped(a.status)))
                 || (q.details.None? && a.status != AckBlocked && Rank(Mapped(a.status)) <= Rank(q.status))
  {
    if LateTaken(s.queue, a) {
      LateShown(s.queue, s.ledger, owners, attached, a);
      LateStatus(s.queue, owners, a);
      ShownAlike(s.queue.status, a.status, s.queue.details.Some?);
    } else {
      LateAck(s, a);
    }
  }

  /** Before it was sent: the fold with the ack against what the ledger shows. */
  lemma ShownAlike(status: Status, ack: AckStatus, parts: bool)
    requires Delivery(status)
    ensures parts ==> (Lesser(status, Mapped(ack)) == status <==> Rank(status) <= Rank(Mapped(ack)))
    ensures !parts ==> (Lesser(status, Mapped(ack)) == Raw(ack)
                        <==> ack != AckBlocked && Rank(Mapped(ack)) <= Rank(status))
  {
  }

  // ---------------------------------------------------------------- the relation

  /** The late ack leaves the relation between the copies alone. */
  predicate LateHarmless(q: QueueItem, a: Ack) {
    !LateTaken(q, a) || (q.status == Sent && NextStatus(q, a) != Sent && q.details.Some?)
  }

  /** The superseded id is expected again, but has no part. */
  lemma ExpectedAgain(q: QueueItem, q': QueueItem, owners: seq<Owner>, id: BridgeId)
    requires QueueShape(q, owners) && id !in q.bridgeIds && q'.bridgeIds == q.bridgeIds + [id]
    requires q'.details.Some? == q.details.Some?
    ensures !QueueShape(q', owners)
  {
    assert id in q'.bridgeIds;
    forall i | 0 <= i < |owners| ensures owners[i] != Some(id) {
      assert Owned(PartsOf(q.details)[i], q.bridgeIds, owners[i], false);
    }
  }

  /** A late ack keeps the copies in step if and only if it is not taken, or the item is sent, has parts and
      stays as it is. */
  lemma LateInStep(s: SendState, owners: seq<Owner>, attached: seq<Owner>, lag: set<BridgeId>, a: Ack)
    requires InStep(s.queue, s.ledger, owners, attached, lag) && Late(s, a.id)
    ensures InStep(SyncAck(s, a).queue, SyncAck(s, a).ledger, owners, attached, lag) <==> LateHarmless(s.queue, a)
  {
    var q, l := s.queue, s.ledger;
    if !LateTaken(q, a) {
      LateAck(s, a);
    } else {
      LateVerdict(q, a);
      LateStatus(q, owners, a);
      ItemFields(q, a);
      if ApplyAck(q, a).Updated? {
        ExpectedAgain(q, QueueAfter(q, a), owners, a.id);
      } else {
        SentMeansAllRecorded(q, owners);
        assert lag == {};
        LateShown(q, l, owners, attached, a);
      }
    }
  }
}
