/** `InStep` over one ack and over whole feeds, and what follows for a reply that was just queued. */
module LockStepRuns {
  import opened Wrappers
  import opened SendParts
  import opened QueueProjection
  import opened LedgerProjection
  import opened SendSync
  import opened LockStep

  // ---------------------------------------------------------------- the ledger's side of one ack

  lemma SentMeansAllRecorded(q: QueueItem, owners: seq<Owner>)
    requires QueueSide(q, owners) && q.status == Sent
    ensures forall b | b in q.bridgeIds :: RecordedStatus(q.acks, b) == Sent
    ensures forall s | s in Local(q) :: s == Sent
  {
    FoldMembers(q.bridgeIds, q.acks, Local(q));
    LocalStatusesDelivery(PartsOf(q.details), q.bridgeIds, owners);
    AggregateQueueIsMeet(q.bridgeIds, q.acks, Local(q));
    forall b | b in q.bridgeIds ensures RecordedStatus(q.acks, b) == Sent {
      assert InFold(RecordedStatus(q.acks, b), q.bridgeIds, q.acks, Local(q));
    }
    forall s | s in Local(q) ensures s == Sent { assert InFold(s, q.bridgeIds, q.acks, Local(q)); }
  }

  lemma OwnedWeaken(ps: seq<Part>, ids: seq<BridgeId>, owners: seq<Owner>, exact: bool)
    requires AllOwned(ps, ids, owners, true)
    ensures AllOwned(ps, ids, owners, exact)
  {
    forall i | 0 <= i < |ps| ensures Owned(ps[i], ids, owners[i], exact) {
      assert Owned(ps[i], ids, owners[i], true);
    }
  }

  /** The ack was stored: the owner's parts show it and no longer lag. */
  lemma FollowStored(ps: seq<Part>, ids: seq<BridgeId>, owners: seq<Owner>, exact: bool, acks: map<BridgeId, AckRecord>,
                     lag: set<BridgeId>, a: Ack)
    requires AllOwned(ps, ids, owners, exact) && AllFollow(ps, owners, acks, lag) && Clean(a, ids)
    requires !exact ==> a.status == AckSent && lag == {} && forall b | b in ids :: RecordedStatus(acks, b) == Sent
    ensures AllOwned(AckParts(ps, a.id, Raw(a.status), a.reason), ids, owners, exact)
    ensures AllFollow(AckParts(ps, a.id, Raw(a.status), a.reason), owners, AcksWith(acks, a), lag - {a.id})
  {
    AckKeepsOwners(ps, ids, owners, exact, a.id, Raw(a.status), a.reason);
    forall i | 0 <= i < |ps|
      ensures Follows(AckParts(ps, a.id, Raw(a.status), a.reason)[i], owners[i], AcksWith(acks, a), lag - {a.id})
    {
      assert Follows(ps[i], owners[i], acks, lag) && Owned(ps[i], ids, owners[i], exact);
    }
  }

  /** The ack was refused: the owner's parts show it and lag from now on. */
  lemma FollowRefused(ps: seq<Part>, ids: seq<BridgeId>, owners: seq<Owner>, acks: map<BridgeId, AckRecord>,
                      lag: set<BridgeId>, a: Ack)
    requires AllOwned(ps, ids, owners, true) && AllFollow(ps, owners, acks, lag) && Clean(a, ids)
    requires RecordedStatus(acks, a.id) == Failed && a.status in {AckSent, AckAccepted}
    ensures AllOwned(AckParts(ps, a.id, Raw(a.status), a.reason), ids, owners, true)
    ensures AllFollow(AckParts(ps, a.id, Raw(a.status), a.reason), owners, acks, lag + {a.id})
  {
    AckKeepsOwners(ps, ids, owners, true, a.id, Raw(a.status), a.reason);
    forall i | 0 <= i < |ps|
      ensures Follows(AckParts(ps, a.id, Raw(a.status), a.reason)[i], owners[i], acks, lag + {a.id})
    {
      assert Follows(ps[i], owners[i], acks, lag) && Owned(ps[i], ids, owners[i], true);
    }
  }

  /** The item was sent and preserved: whatever the write touches already showed `Sent`. */
  lemma FollowPreserved(ps: seq<Part>, ids: seq<BridgeId>, owners: seq<Owner>, acks: map<BridgeId, AckRecord>,
                        id: BridgeId, reason: string)
    requires AllOwned(ps, ids, owners, false) && AllFollow(ps, owners, acks, {}) && id in ids
    requires forall b | b in ids :: RecordedStatus(acks, b) == Sent
    ensures AllOwned(AckParts(ps, id, Sent, reason), ids, owners, false)
    ensures AllFollow(AckParts(ps, id, Sent, reason), owners, acks, {})
  {
    AckKeepsOwners(ps, ids, owners, false, id, Sent, reason);
    forall i | 0 <= i < |ps| ensures Follows(AckParts(ps, id, Sent, reason)[i], owners[i], acks, {}) {
      assert Follows(ps[i], owners[i], acks, {}) && Owned(ps[i], ids, owners[i], false);
    }
  }

  lemma TopSyncKeeps(l: LedgerSend, status: Status, reason: string, messageId: string)
    ensures TopSync(l, status, reason, messageId).details == l.details
    ensures TopSync(l, status, reason, messageId).attachments == l.attachments
    ensures l.top.messageId == messageId ==> TopSync(l, status, reason, messageId).top.messageId == messageId
  {
  }

  /** The record matches every expected id. */
  lemma RecordMatches(q: QueueItem, l: LedgerSend, owners: seq<Owner>, id: BridgeId)
    requires l.details.Some? == q.details.Some? && id in q.bridgeIds
    requires q.details.None? ==> |q.bridgeIds| == 1 && l.top.messageId == q.bridgeIds[0]
    requires q.details.Some? ==> Covered(q.bridgeIds, owners)
    requires AllOwned(PartsOf(l.details), q.bridgeIds, owners, q.status != Sent)
    ensures LedgerMatches(l, id)
  {
    if q.details.Some? {
      assert Some(id) in owners;
      var i :| 0 <= i < |owners| && owners[i] == Some(id);
      assert Owned(PartsOf(l.details)[i], q.bridgeIds, owners[i], q.status != Sent);
      assert References(PartsOf(l.details)[i], id);
    }
  }

  lemma LedgerAckFields(l: LedgerSend, id: BridgeId, status: Status, reason: string)
    requires LedgerMatches(l, id)
    ensures var r := LedgerAck(l, id, status, reason);
            && r.details.Some? == l.details.Some?
            && PartsOf(r.details) == AckParts(PartsOf(l.details), id, status, reason)
            && r.attachments == AckParts(l.attachments, id, status, reason)
            && r.top.messageId == l.top.messageId
            && (l.details.None? ==> r.top.status == status)
            && (l.details.Some? && AggregateLedger(Statuses(PartsOf(r.details))).Some? ==>
                  r.top.status == AggregateLedger(Statuses(PartsOf(r.details))).value)
  {
  }

  ghost function NextLag(q: QueueItem, a: Ack, lag: set<BridgeId>): set<BridgeId> {
    if ApplyAck(q, a).Refused? then lag + {a.id}
    else if ApplyAck(q, a).Preserved? then lag
    else lag - {a.id}
  }

  /** Where the record ends up, by outcome. */
  lemma LedgerAfterFields(q: QueueItem, l: LedgerSend, owners: seq<Owner>, attached: seq<Owner>, lag: set<BridgeId>,
                          a: Ack)
    requires QueueSide(q, owners) && LedgerSide(q, l, owners, attached, lag) && a.id in q.bridgeIds
    ensures var r, o := LedgerAfter(q, l, a), ApplyAck(q, a);
            var status := if o.Preserved? then Sent else Raw(a.status);
            var reason := if o.Preserved? then o.reason else a.reason;
            && r.details.Some? == q.details.Some?
            && PartsOf(r.details) == AckParts(PartsOf(l.details), a.id, status, reason)
            && r.attachments == AckParts(l.attachments, a.id, status, reason)
            && (q.details.None? ==> r.top.messageId == q.bridgeIds[0] && r.top.status == status)
            && (q.details.Some? && AggregateLedger(Statuses(PartsOf(r.details))).Some? ==>
                  r.top.status == AggregateLedger(Statuses(PartsOf(r.details))).value)
  {
    QueueVerdict(q, owners, a);
    RecordMatches(q, l, owners, a.id);
    var o := ApplyAck(q, a);
    if o.Refused? {
      LedgerAckFields(l, a.id, Raw(a.status), a.reason);
    } else {
      var status := if o.Preserved? then q.status else o.item.status;
      var l' := TopSync(l, status, o.reason, a.id);
      TopSyncKeeps(l, status, o.reason, a.id);
      RecordMatches(q, l', owners, a.id);
      if o.Preserved? { LedgerAckFields(l', a.id, Sent, o.reason); }
      else { LedgerAckFields(l', a.id, Raw(a.status), a.reason); }
    }
  }

  // ---------------------------------------------------------------- one ack, both sides

  lemma StepRefused(q: QueueItem, l: LedgerSend, owners: seq<Owner>, attached: seq<Owner>, lag: set<BridgeId>, a: Ack)
    requires InStep(q, l, owners, attached, lag) && Clean(a, q.bridgeIds) && ApplyAck(q, a).Refused?
    ensures InStep(q, LedgerAfter(q, l, a), owners, attached, lag + {a.id})
  {
    QueueVerdict(q, owners, a);
    LedgerAfterFields(q, l, owners, attached, lag, a);
    FollowRefused(PartsOf(l.details), q.bridgeIds, owners, q.acks, lag, a);
    FollowRefused(l.attachments, q.bridgeIds, attached, q.acks, lag, a);
    LocalKept(PartsOf(q.details), PartsOf(q.details), PartsOf(l.details), q.bridgeIds, owners, a, Raw(a.status),
              a.reason);
  }

  /** Local parts of both copies are untouched by an ack. */
  lemma LocalKept(qs: seq<Part>, qs': seq<Part>, ls: seq<Part>, ids: seq<BridgeId>, owners: seq<Owner>, a: Ack,
                  status: Status, reason: string)
    requires |qs| == |qs'| == |ls| == |owners| && a.id in ids
    requires forall i | 0 <= i < |qs| && owners[i].None? :: qs'[i] == qs[i]
    requires AllOwned(ls, ids, owners, false) || AllOwned(ls, ids, owners, true)
    requires SameLocal(qs, ls, owners)
    ensures SameLocal(qs', AckParts(ls, a.id, status, reason), owners)
  {
    forall i | 0 <= i < |qs| && owners[i].None?
      ensures AckParts(ls, a.id, status, reason)[i].status == qs'[i].status
    {
      assert Owned(ls[i], ids, owners[i], false) || Owned(ls[i], ids, owners[i], true);
    }
  }

  lemma StepPreserved(q: QueueItem, l: LedgerSend, owners: seq<Owner>, attached: seq<Owner>, lag: set<BridgeId>, a: Ack)
    requires InStep(q, l, owners, attached, lag) && a.id in q.bridgeIds && ApplyAck(q, a).Preserved?
    ensures InStep(q, LedgerAfter(q, l, a), owners, attached, lag)
  {
    QueueVerdict(q, owners, a);
    SentMeansAllRecorded(q, owners);
    assert lag == {};
    var reason := ApplyAck(q, a).reason;
    LedgerAfterFields(q, l, owners, attached, lag, a);
    FollowPreserved(PartsOf(l.details), q.bridgeIds, owners, q.acks, a.id, reason);
    FollowPreserved(l.attachments, q.bridgeIds, attached, q.acks, a.id, reason);
    LocalKept(PartsOf(q.details), PartsOf(q.details), PartsOf(l.details), q.bridgeIds, owners, a, Sent, reason);
    if q.details.Some? { AggregatesAgree(q, PartsOf(LedgerAfter(q, l, a).details), owners); }
  }

  /** A sent item only stores acks that are sent themselves. */
  lemma SentStoresSent(q: QueueItem, owners: seq<Owner>, a: Ack)
    requires QueueSide(q, owners) && a.id in q.bridgeIds && q.status == Sent && ApplyAck(q, a).Updated?
    ensures a.status == AckSent
  {
    QueueVerdict(q, owners, a);
    StatusStep(q, owners, a);
    var acks := AcksWith(q.acks, a);
    LocalStatusesDelivery(PartsOf(q.details), q.bridgeIds, owners);
    FoldMembers(q.bridgeIds, acks, Local(q));
    AggregateQueueIsMeet(q.bridgeIds, acks, Local(q));
    assert InFold(RecordedStatus(acks, a.id), q.bridgeIds, acks, Local(q));
  }

  lemma StoredSides(q: QueueItem, l: LedgerSend, owners: seq<Owner>, attached: seq<Owner>, lag: set<BridgeId>, a: Ack)
    requires InStep(q, l, owners, attached, lag) && Clean(a, q.bridgeIds) && ApplyAck(q, a).Updated?
    ensures var ls := AckParts(PartsOf(l.details), a.id, Raw(a.status), a.reason);
            var ts := AckParts(l.attachments, a.id, Raw(a.status), a.reason);
            var q' := QueueAfter(q, a);
            && AllOwned(ls, q.bridgeIds, owners, q'.status != Sent)
            && AllOwned(ts, q.bridgeIds, attached, q'.status != Sent)
            && AllFollow(ls, owners, q'.acks, lag - {a.id}) && AllFollow(ts, attached, q'.acks, lag - {a.id})
  {
    QueueVerdict(q, owners, a);
    ItemFields(q, a);
    if q.status == Sent { SentMeansAllRecorded(q, owners); SentStoresSent(q, owners, a); }
    FollowStored(PartsOf(l.details), q.bridgeIds, owners, q.status != Sent, q.acks, lag, a);
    FollowStored(l.attachments, q.bridgeIds, attached, q.status != Sent, q.acks, lag, a);
    if q.status != Sent {
      OwnedWeaken(AckParts(PartsOf(l.details), a.id, Raw(a.status), a.reason), q.bridgeIds, owners,
                  QueueAfter(q, a).status != Sent);
      OwnedWeaken(AckParts(l.attachments, a.id, Raw(a.status), a.reason), q.bridgeIds, attached,
                  QueueAfter(q, a).status != Sent);
    }
    assert q.status == Sent ==> QueueAfter(q, a).status == Sent;
  }

  lemma StepStored(q: QueueItem, l: LedgerSend, owners: seq<Owner>, attached: seq<Owner>, lag: set<BridgeId>, a: Ack)
    requires InStep(q, l, owners, attached, lag) && Clean(a, q.bridgeIds) && ApplyAck(q, a).Updated?
    ensures InStep(QueueAfter(q, a), LedgerAfter(q, l, a), owners, attached, lag - {a.id})
  {
    var q', l' := QueueAfter(q, a), LedgerAfter(q, l, a);
    QueueVerdict(q, owners, a);
    ItemFields(q, a);
    QueueStep(q, owners, a);
    LedgerAfterFields(q, l, owners, attached, lag, a);
    StoredSides(q, l, owners, attached, lag, a);
    AckKeepsOwners(PartsOf(q.details), q.bridgeIds, owners, false, a.id, Mapped(a.status), a.reason);
    LocalKept(PartsOf(q.details), PartsOf(q'.details), PartsOf(l.details), q.bridgeIds, owners, a, Raw(a.status),
              a.reason);
    if lag - {a.id} == {} {
      if q'.details.Some? { AggregatesAgree(q', PartsOf(l'.details), owners); }
      else { SingleMirrors(q, a); }
    }
  }

  lemma SingleMirrors(q: QueueItem, a: Ack)
    requires q.details.None? && |q.bridgeIds| == 1 && Distinct(q.bridgeIds) && a.id in q.bridgeIds
    ensures NextStatus(q, a) == Mapped(a.status)
  {
    ExpectedUnchanged(q, a);
  }

  /** One ack keeps the relation, and changes the lagging ids exactly by what the queue did with it. */
  lemma Step(q: QueueItem, l: LedgerSend, owners: seq<Owner>, attached: seq<Owner>, lag: set<BridgeId>, a: Ack)
    requires InStep(q, l, owners, attached, lag) && Clean(a, q.bridgeIds)
    ensures InStep(QueueAfter(q, a), LedgerAfter(q, l, a), owners, attached, NextLag(q, a, lag))
    ensures QueueAfter(q, a).bridgeIds == q.bridgeIds
  {
    QueueVerdict(q, owners, a);
    match ApplyAck(q, a)
    case NotFound =>
    case Refused => StepRefused(q, l, owners, attached, lag, a);
    case Preserved(_) => StepPreserved(q, l, owners, attached, lag, a);
    case Updated(_, _) => StepStored(q, l, owners, attached, lag, a); QueueStep(q, owners, a);
  }

  // ---------------------------------------------------------------- feeds

  /** A reply as it stands right after it was handed to the bridge: no acks, every bridged part
      queued in both copies, local parts with a delivery status. */
  ghost predicate Fresh(s: SendState, owners: seq<Owner>, attached: seq<Owner>) {
    var q, l := s.queue, s.ledger;
    && q.acks == map[] && Distinct(q.bridgeIds) && q.bridgeIds != []
    && l.details == q.details
    && (q.details.None? ==> |q.bridgeIds| == 1 && l.top.messageId == q.bridgeIds[0])
    && (q.details.Some? ==> Covered(q.bridgeIds, owners))
    && AllOwned(PartsOf(q.details), q.bridgeIds, owners, true)
    && AllOwned(l.attachments, q.bridgeIds, attached, true)
    && LocalDelivery(PartsOf(q.details), owners)
    && (forall i | 0 <= i < |owners| && owners[i].Some? :: PartsOf(q.details)[i].status == Queued)
    && (forall i | 0 <= i < |attached| && attached[i].Some? :: l.attachments[i].status == Queued)
    && q.status == l.top.status == Fold(q)
  }

  lemma FreshInStep(s: SendState, owners: seq<Owner>, attached: seq<Owner>)
    requires Fresh(s, owners, attached)
    ensures InStep(s.queue, s.ledger, owners, attached, {})
    ensures s.queue.status in {Queued, Failed}
  {
    var q := s.queue;
    OwnedWeaken(PartsOf(q.details), q.bridgeIds, owners, false);
    LocalStatusesDelivery(PartsOf(q.details), q.bridgeIds, owners);
    FoldMembers(q.bridgeIds, q.acks, Local(q));
    AggregateQueueIsMeet(q.bridgeIds, q.acks, Local(q));
    assert InFold(RecordedStatus(q.acks, q.bridgeIds[0]), q.bridgeIds, q.acks, Local(q));
  }

  ghost predicate CleanFeed(feed: seq<Ack>, ids: seq<BridgeId>) {
    forall i | 0 <= i < |feed| :: Clean(feed[i], ids)
  }

  /** The ids whose latest ack in the feed the queue refused. */
  ghost function LagAfter(s: SendState, feed: seq<Ack>): set<BridgeId> {
    if feed == [] then {}
    else
      var init := feed[..|feed| - 1];
      NextLag(Run(s, init).queue, feed[|feed| - 1], LagAfter(s, init))
  }

  /** Over any feed of sent, accepted and failed acks, in any order and with any repetition, ledger
      and queue stay in step up to the refused acks. */
  lemma {:induction false} FeedInStep(s: SendState, owners: seq<Owner>, attached: seq<Owner>, feed: seq<Ack>)
    requires Fresh(s, owners, attached) && CleanFeed(feed, s.queue.bridgeIds)
    ensures Run(s, feed).queue.bridgeIds == s.queue.bridgeIds
    ensures InStep(Run(s, feed).queue, Run(s, feed).ledger, owners, attached, LagAfter(s, feed))
  {
    if feed == [] {
      FreshInStep(s, owners, attached);
    } else {
      var init, a := feed[..|feed| - 1], feed[|feed| - 1];
      FeedInStep(s, owners, attached, init);
      assert Clean(a, s.queue.bridgeIds);
      var t := Run(s, init);
      Step(t.queue, t.ledger, owners, attached, LagAfter(s, init), a);
    }
  }
}
