/** What the lock-step relation means for a reply: where ledger and queue agree, exactly when
    they do not, and what a `blocked` ack does. */
module DeliveryAgreement {
  import opened Wrappers
  import opened SendParts
  import opened QueueProjection
  import opened LedgerProjection
  import opened SendSync
  import opened LockStep
  import opened LockStepRuns

  lemma LagIsExact(ps: seq<Part>, owners: seq<Owner>, acks: map<BridgeId, AckRecord>, lag: set<BridgeId>, i: nat)
    requires |owners| == |ps| && i < |ps| && AllFollow(ps, owners, acks, lag) && owners[i].Some?
    ensures ps[i].status == RecordedStatus(acks, owners[i].value) <==> owners[i].value !in lag
  {
    assert Follows(ps[i], owners[i], acks, lag);
  }

  /** After any feed: a ledger part (and an attachment) shows the queue's recorded ack for its id
      exactly when the queue did not refuse the latest ack for that id, local parts still show
      the same status in both copies, and with no refused latest ack the aggregates are equal. */
  lemma LedgerFollowsQueue(s: SendState, owners: seq<Owner>, attached: seq<Owner>, feed: seq<Ack>)
    requires Fresh(s, owners, attached) && CleanFeed(feed, s.queue.bridgeIds)
    ensures var t, lag := Run(s, feed), LagAfter(s, feed);
            var ls, qs := PartsOf(t.ledger.details), PartsOf(t.queue.details);
            && |ls| == |qs| == |owners| && |t.ledger.attachments| == |attached|
            && (forall i | 0 <= i < |ls| && owners[i].Some? ::
                  ls[i].status == RecordedStatus(t.queue.acks, owners[i].value) <==> owners[i].value !in lag)
            && (forall i | 0 <= i < |attached| && attached[i].Some? ::
                  t.ledger.attachments[i].status == RecordedStatus(t.queue.acks, attached[i].value)
                  <==> attached[i].value !in lag)
            && (forall i | 0 <= i < |ls| && owners[i].None? :: ls[i].status == qs[i].status)
            && (lag == {} ==> t.ledger.top.status == t.queue.status)
  {
    FeedInStep(s, owners, attached, feed);
    var t, lag := Run(s, feed), LagAfter(s, feed);
    forall i | 0 <= i < |owners| && owners[i].Some?
      ensures PartsOf(t.ledger.details)[i].status == RecordedStatus(t.queue.acks, owners[i].value)
              <==> owners[i].value !in lag
    {
      LagIsExact(PartsOf(t.ledger.details), owners, t.queue.acks, lag, i);
    }
    forall i | 0 <= i < |attached| && attached[i].Some?
      ensures t.ledger.attachments[i].status == RecordedStatus(t.queue.acks, attached[i].value)
              <==> attached[i].value !in lag
    {
      LagIsExact(t.ledger.attachments, attached, t.queue.acks, lag, i);
    }
  }

  /** The queue refuses the next ack: the item is failed, and with this ack nothing recorded is
      failed any more but something is still queued. */
  predicate Refuses(q: QueueItem, a: Ack) {
    q.status == Failed && NextStatus(q, a) == Queued
  }

  predicate TakenAt(s: SendState, feed: seq<Ack>, k: nat)
    requires k < |feed|
  {
    !Refuses(Run(s, feed[..k]).queue, feed[k])
  }

  /** Every bridged part shows the ack that the queue recorded for its owner. */
  ghost predicate AllShow(ps: seq<Part>, owners: seq<Owner>, acks: map<BridgeId, AckRecord>) {
    && |owners| == |ps|
    && forall i | 0 <= i < |ps| && owners[i].Some? :: ps[i].status == RecordedStatus(acks, owners[i].value)
  }

  /** Ledger and queue agree: in the status of the reply, and for every part and attachment. */
  ghost predicate Agree(q: QueueItem, l: LedgerSend, owners: seq<Owner>, attached: seq<Owner>) {
    && l.top.status == q.status
    && AllShow(PartsOf(l.details), owners, q.acks) && AllShow(l.attachments, attached, q.acks)
  }

  ghost predicate AgreeAt(s: SendState, owners: seq<Owner>, attached: seq<Owner>, feed: seq<Ack>, k: nat)
    requires k <= |feed|
  {
    Agree(Run(s, feed[..k]).queue, Run(s, feed[..k]).ledger, owners, attached)
  }

  /** Between copies in step, agreement is the absence of lagging ids: a lagging id has a part, and that
      part shows it. */
  lemma AgreeIffNoLag(q: QueueItem, l: LedgerSend, owners: seq<Owner>, attached: seq<Owner>, lag: set<BridgeId>)
    requires InStep(q, l, owners, attached, lag)
    ensures Agree(q, l, owners, attached) <==> lag == {}
  {
    if b :| b in lag {
      assert Some(b) in owners;
      var i :| 0 <= i < |owners| && owners[i] == Some(b);
      LagIsExact(PartsOf(l.details), owners, q.acks, lag, i);
    } else {
      ShowsWithoutLag(PartsOf(l.details), q.bridgeIds, owners, q.acks, q.status != Sent);
      ShowsWithoutLag(l.attachments, q.bridgeIds, attached, q.acks, q.status != Sent);
    }
  }

  lemma ShowsWithoutLag(ps: seq<Part>, ids: seq<BridgeId>, owners: seq<Owner>, acks: map<BridgeId, AckRecord>,
                        exact: bool)
    requires AllOwned(ps, ids, owners, exact) && AllFollow(ps, owners, acks, {})
    ensures AllShow(ps, owners, acks)
  {
    forall i | 0 <= i < |ps| && owners[i].Some? ensures ps[i].status == RecordedStatus(acks, owners[i].value) {
      LagIsExact(ps, owners, acks, {}, i);
    }
  }

  /** A first refusal shows in the status of the reply as well: the queue stays failed, the ledger, which
      folds its own copy of the parts, goes back to queued. */
  lemma RefusalSeparates(q: QueueItem, l: LedgerSend, owners: seq<Owner>, attached: seq<Owner>, a: Ack)
    requires InStep(q, l, owners, attached, {}) && Clean(a, q.bridgeIds) && Refuses(q, a)
    ensures QueueAfter(q, a).status == Failed && LedgerAfter(q, l, a).top.status == Queued
  {
    QueueVerdict(q, owners, a);
    LedgerAfterFields(q, l, owners, attached, {}, a);
    QueueStep(q, owners, a);
    FollowStored(PartsOf(l.details), q.bridgeIds, owners, true, q.acks, {}, a);
    AckedParts(q, PartsOf(l.details), owners, a);
    AggregatesAgree(ItemWithAck(q, a), AckParts(PartsOf(l.details), a.id, Raw(a.status), a.reason), owners);
  }

  lemma AckedParts(q: QueueItem, ls: seq<Part>, owners: seq<Owner>, a: Ack)
    requires QueueSide(q, owners) && a.id in q.bridgeIds && |ls| == |owners| == |PartsOf(q.details)|
    requires AllOwned(ls, q.bridgeIds, owners, true) && SameLocal(PartsOf(q.details), ls, owners)
    ensures ItemWithAck(q, a).acks == AcksWith(q.acks, a) && ItemWithAck(q, a).details.Some? == q.details.Some?
    ensures PartsOf(ItemWithAck(q, a).details) == AckParts(PartsOf(q.details), a.id, Mapped(a.status), a.reason)
    ensures SameLocal(PartsOf(ItemWithAck(q, a).details), AckParts(ls, a.id, Raw(a.status), a.reason), owners)
  {
    QueueStep(q, owners, a);
    ItemFields(q, a);
    AckKeepsOwners(PartsOf(q.details), q.bridgeIds, owners, false, a.id, Mapped(a.status), a.reason);
    LocalKept(PartsOf(q.details), PartsOf(ItemWithAck(q, a).details), ls, q.bridgeIds, owners, a, Raw(a.status),
              a.reason);
  }

  lemma QueueOfPrefix(s: SendState, owners: seq<Owner>, attached: seq<Owner>, feed: seq<Ack>, k: nat)
    requires Fresh(s, owners, attached) && CleanFeed(feed, s.queue.bridgeIds) && k <= |feed|
    ensures InStep(Run(s, feed[..k]).queue, Run(s, feed[..k]).ledger, owners, attached, LagAfter(s, feed[..k]))
    ensures k < |feed| ==> Clean(feed[k], Run(s, feed[..k]).queue.bridgeIds)
  {
    FeedInStep(s, owners, attached, feed[..k]);
    assert k < |feed| ==> Clean(feed[k], s.queue.bridgeIds);
  }

  lemma RunNext(s: SendState, feed: seq<Ack>, k: nat)
    requires k < |feed|
    ensures Run(s, feed[..k + 1]) == SyncAck(Run(s, feed[..k]), feed[k])
  {
    assert feed[..k + 1][..k] == feed[..k];
  }

  /** One ack on copies that agree. */
  lemma AgreeStep(q: QueueItem, l: LedgerSend, owners: seq<Owner>, attached: seq<Owner>, a: Ack)
    requires InStep(q, l, owners, attached, {}) && Clean(a, q.bridgeIds)
    ensures Agree(QueueAfter(q, a), LedgerAfter(q, l, a), owners, attached) <==> !Refuses(q, a)
  {
    QueueVerdict(q, owners, a);
    Step(q, l, owners, attached, {}, a);
    AgreeIffNoLag(QueueAfter(q, a), LedgerAfter(q, l, a), owners, attached, NextLag(q, a, {}));
  }

  lemma AgreeNext(s: SendState, owners: seq<Owner>, attached: seq<Owner>, feed: seq<Ack>, k: nat)
    requires Fresh(s, owners, attached) && CleanFeed(feed, s.queue.bridgeIds) && k < |feed|
    requires AgreeAt(s, owners, attached, feed, k)
    ensures AgreeAt(s, owners, attached, feed, k + 1) <==> TakenAt(s, feed, k)
  {
    var t := Run(s, feed[..k]);
    QueueOfPrefix(s, owners, attached, feed, k);
    AgreeIffNoLag(t.queue, t.ledger, owners, attached, LagAfter(s, feed[..k]));
    RunNext(s, feed, k);
    AgreeStep(t.queue, t.ledger, owners, attached, feed[k]);
  }

  lemma AgreeAtStart(s: SendState, owners: seq<Owner>, attached: seq<Owner>, feed: seq<Ack>)
    requires Fresh(s, owners, attached)
    ensures AgreeAt(s, owners, attached, feed, 0)
  {
    assert feed[..0] == [];
    FreshInStep(s, owners, attached);
    AgreeIffNoLag(s.queue, s.ledger, owners, attached, {});
  }

  ghost predicate TakenUpTo(s: SendState, feed: seq<Ack>, k: nat)
    requires k <= |feed|
  {
    forall j | 0 <= j < k :: TakenAt(s, feed, j)
  }

  lemma TakenBefore(s: SendState, feed: seq<Ack>, k: nat)
    requires k < |feed| && TakenUpTo(s, feed, k + 1)
    ensures TakenUpTo(s, feed, k) && TakenAt(s, feed, k)
  {
  }

  lemma {:induction false} AgreeWhileTaken(s: SendState, owners: seq<Owner>, attached: seq<Owner>, feed: seq<Ack>,
                                           k: nat)
    requires Fresh(s, owners, attached) && CleanFeed(feed, s.queue.bridgeIds) && k <= |feed|
    requires TakenUpTo(s, feed, k)
    ensures AgreeAt(s, owners, attached, feed, k)
  {
    if k == 0 {
      AgreeAtStart(s, owners, attached, feed);
    } else {
      TakenBefore(s, feed, k - 1);
      AgreeWhileTaken(s, owners, attached, feed, k - 1);
      AgreeNextTaken(s, owners, attached, feed, k - 1);
    }
  }

  lemma AgreeNextTaken(s: SendState, owners: seq<Owner>, attached: seq<Owner>, feed: seq<Ack>, k: nat)
    requires Fresh(s, owners, attached) && CleanFeed(feed, s.queue.bridgeIds) && k < |feed|
    requires AgreeAt(s, owners, attached, feed, k) && TakenAt(s, feed, k)
    ensures AgreeAt(s, owners, attached, feed, k + 1)
  {
    AgreeNext(s, owners, attached, feed, k);
  }

  /** Ledger and queue agree after every ack of the feed, in the status of the reply and in every part and
      attachment, if and only if the queue refuses none of the acks. */
  lemma InStepThroughoutIffNoRefusal(s: SendState, owners: seq<Owner>, attached: seq<Owner>, feed: seq<Ack>)
    requires Fresh(s, owners, attached) && CleanFeed(feed, s.queue.bridgeIds)
    ensures (forall k | 0 <= k <= |feed| :: AgreeAt(s, owners, attached, feed, k))
            <==> (forall k | 0 <= k < |feed| :: TakenAt(s, feed, k))
  {
    if forall k | 0 <= k < |feed| :: TakenAt(s, feed, k) {
      forall k | 0 <= k <= |feed|
        ensures AgreeAt(s, owners, attached, feed, k)
      {
        AgreeWhileTaken(s, owners, attached, feed, k);
      }
    }
    if forall k | 0 <= k <= |feed| :: AgreeAt(s, owners, attached, feed, k) {
      forall k | 0 <= k < |feed| ensures TakenAt(s, feed, k) {
        assert AgreeAt(s, owners, attached, feed, k) && AgreeAt(s, owners, attached, feed, k + 1);
        AgreeNext(s, owners, attached, feed, k);
      }
    }
  }

  /** At the first refused ack of a feed the two statuses of the reply differ. */
  lemma FirstRefusalSeparates(s: SendState, owners: seq<Owner>, attached: seq<Owner>, feed: seq<Ack>, k: nat)
    requires Fresh(s, owners, attached) && CleanFeed(feed, s.queue.bridgeIds) && k < |feed|
    requires !TakenAt(s, feed, k) && TakenUpTo(s, feed, k)
    ensures Run(s, feed[..k + 1]).queue.status == Failed && Run(s, feed[..k + 1]).ledger.top.status == Queued
  {
    var t := Run(s, feed[..k]);
    AgreeWhileTaken(s, owners, attached, feed, k);
    QueueOfPrefix(s, owners, attached, feed, k);
    AgreeIffNoLag(t.queue, t.ledger, owners, attached, LagAfter(s, feed[..k]));
    RunNext(s, feed, k);
    RefusalSeparates(t.queue, t.ledger, owners, attached, feed[k]);
  }

  // ---------------------------------------------------------------- a refused ack, concretely

  lemma NoLocal(ps: seq<Part>, ids: seq<BridgeId>, owners: seq<Owner>)
    requires AllOwned(ps, ids, owners, false) && forall i | 0 <= i < |owners| :: owners[i].Some?
    ensures LocalStatuses(ps, ids) == []
  {
    BridgedAreReferenced(ps, ids, owners);
    LocalStatusesExact(ps, ids);
  }

  lemma FoldOfTwo(b: BridgeId, c: BridgeId, acks: map<BridgeId, AckRecord>)
    ensures RecordedStatus(acks, b) == Failed ==> AggregateQueue([b, c], acks, []) == Failed
    ensures RecordedStatus(acks, b) == Sent && RecordedStatus(acks, c) == Queued ==>
              AggregateQueue([b, c], acks, []) == Queued
  {
    var statuses := [] + RecordedStatuses([b, c], acks);
    assert statuses == [RecordedStatus(acks, b), RecordedStatus(acks, c)];
  }

  /** A reply of two bridged parts, just queued. */
  ghost predicate TwoParts(s: SendState, b: BridgeId, c: BridgeId) {
    b != c && s.queue.bridgeIds == [b, c] && s.queue.details.Some? && Fresh(s, [Some(b), Some(c)], [])
  }

  /** For every such reply: the first part fails, then its ack is corrected to sent while the
      second part is still queued.  The queue refuses the correction and stays failed; the
      ledger shows queued. */
  lemma RefusedCorrection(s: SendState, b: BridgeId, c: BridgeId, a1: Ack, a2: Ack)
    requires TwoParts(s, b, c) && Clean(a1, [b, c]) && Clean(a2, [b, c])
    requires a1.id == a2.id == b && a1.status == AckFailed && a2.status == AckSent
    ensures Refuses(SyncAck(s, a1).queue, a2)
    ensures var t := SyncAck(SyncAck(s, a1), a2); t.queue.status == Failed && t.ledger.top.status == Queued
  {
    FreshInStep(s, [Some(b), Some(c)], []);
    FirstFails(s.queue, s.ledger, b, c, a1);
    var t := SyncAck(s, a1);
    CorrectionRefused(t.queue, [Some(b), Some(c)], b, c, a2);
    RefusalSeparates(t.queue, t.ledger, [Some(b), Some(c)], [], a2);
  }

  lemma FirstFails(q: QueueItem, l: LedgerSend, b: BridgeId, c: BridgeId, a: Ack)
    requires InStep(q, l, [Some(b), Some(c)], [], {}) && q.acks == map[] && q.status in {Queued, Failed}
    requires q.bridgeIds == [b, c] && b != c && q.details.Some?
    requires Clean(a, [b, c]) && a.id == b && a.status == AckFailed
    ensures InStep(QueueAfter(q, a), LedgerAfter(q, l, a), [Some(b), Some(c)], [], {})
    ensures var q' := QueueAfter(q, a);
            && q'.bridgeIds == [b, c] && q'.details.Some?
            && RecordedStatus(q'.acks, b) == Failed && RecordedStatus(q'.acks, c) == Queued
  {
    Step(q, l, [Some(b), Some(c)], [], {}, a);
    assert NextLag(q, a, {}) == {} by { QueueVerdict(q, [Some(b), Some(c)], a); }
    FirstRecorded(q, [Some(b), Some(c)], b, c, a);
  }

  lemma FirstRecorded(q: QueueItem, owners: seq<Owner>, b: BridgeId, c: BridgeId, a: Ack)
    requires QueueSide(q, owners) && q.bridgeIds == [b, c] && b != c && q.details.Some? && q.status != Sent
    requires q.acks == map[] && a.id == b && a.status == AckFailed
    ensures var q' := QueueAfter(q, a);
            && q'.bridgeIds == [b, c] && q'.details.Some?
            && RecordedStatus(q'.acks, b) == Failed && RecordedStatus(q'.acks, c) == Queued
  {
    QueueVerdict(q, owners, a);
    ExpectedUnchanged(q, a);
    ItemFields(q, a);
  }

  lemma CorrectionRefused(q: QueueItem, owners: seq<Owner>, b: BridgeId, c: BridgeId, a: Ack)
    requires QueueSide(q, owners) && owners == [Some(b), Some(c)] && q.bridgeIds == [b, c] && b != c
    requires RecordedStatus(q.acks, b) == Failed && RecordedStatus(q.acks, c) == Queued
    requires a.id == b && a.status == AckSent
    ensures Refuses(q, a) && ApplyAck(q, a).Refused?
  {
    NoLocal(PartsOf(q.details), q.bridgeIds, owners);
    NextStatusIsFold(q, a);
    FoldOfTwo(b, c, q.acks);
    FoldOfTwo(b, c, AcksWith(q.acks, a));
    QueueVerdict(q, owners, a);
  }

  /** Such replies exist. */
  lemma TwoPartsExist(b: BridgeId, c: BridgeId) returns (s: SendState)
    requires b != c
    ensures TwoParts(s, b, c)
  {
    var p, r := Part(b, "", "", Queued, ""), Part(c, "", "", Queued, "");
    var d := Some(Details([b, c], Some(p), [r]));
    s := SendState(QueueItem(Queued, "", "", [b, c], map[], "", b, "", d), LedgerSend(p, d, []), []);
    var owners: seq<Owner> := [Some(b), Some(c)];
    assert PartsOf(d) == [p, r];
    assert !Mentions("", b) && !Mentions("", c);
    assert Owned(p, [b, c], owners[0], true) && Owned(r, [b, c], owners[1], true);
    OwnedWeaken(PartsOf(d), [b, c], owners, false);
    NoLocal(PartsOf(d), [b, c], owners);
    var statuses := [] + RecordedStatuses([b, c], map[]);
    assert statuses == [Queued, Queued];
    assert owners[0] == Some(b) && owners[1] == Some(c);
  }

  // ---------------------------------------------------------------- blocked acks

  /** The ledger keeps `blocked` raw while the queue records a failure.  So a blocked ack on an
      item that is not sent leaves the two aggregates equal exactly when some other part of the
      ledger record is failed. */
  lemma BlockedAgreesExactly(q: QueueItem, l: LedgerSend, owners: seq<Owner>, attached: seq<Owner>, a: Ack)
    requires InStep(q, l, owners, attached, {}) && a.id in q.bridgeIds && CleanReason(a.reason, a.id, q.bridgeIds)
    requires a.status == AckBlocked && q.status != Sent
    ensures QueueAfter(q, a).status == Failed
    ensures LedgerAfter(q, l, a).top.status == QueueAfter(q, a).status
            <==> exists i | 0 <= i < |owners| :: owners[i] != Some(a.id) && PartsOf(l.details)[i].status == Failed
  {
    BlockedFailsQueue(q, owners, a);
    SideFacts(q, l, owners, attached);
    if q.details.Some? { assert Some(a.id) in owners; }
    BlockedTop(q, l, owners, attached, a);
    var ls := PartsOf(l.details);
    BlockedParts(ls, q.bridgeIds, owners, a);
    BlockedStatuses(ls, AckParts(ls, a.id, Blocked, a.reason), owners, a.id);
  }

  lemma SideFacts(q: QueueItem, l: LedgerSend, owners: seq<Owner>, attached: seq<Owner>)
    requires LedgerSide(q, l, owners, attached, {}) && QueueShape(q, owners) && q.status != Sent
    ensures |PartsOf(l.details)| == |owners| && AllOwned(PartsOf(l.details), q.bridgeIds, owners, true)
    ensures q.details.Some? ==> Covered(q.bridgeIds, owners)
    ensures q.details.None? ==> owners == [] && l.details.None?
  {
  }

  lemma RecordFound(q: QueueItem, l: LedgerSend, owners: seq<Owner>, attached: seq<Owner>, a: Ack)
    requires QueueShape(q, owners) && LedgerSide(q, l, owners, attached, {}) && a.id in q.bridgeIds
    ensures LedgerMatches(l, a.id) && l.details.Some? == q.details.Some?
  {
    RecordMatches(q, l, owners, a.id);
  }

  lemma StoredSingle(q: QueueItem, l: LedgerSend, a: Ack)
    requires ApplyAck(q, a).Updated? && LedgerMatches(l, a.id) && l.details.None?
    ensures LedgerAfter(q, l, a).top.status == Raw(a.status)
  {
    var o := ApplyAck(q, a);
    TopSyncKeeps(l, o.item.status, o.reason, a.id);
    assert LedgerMatches(TopSync(l, o.item.status, o.reason, a.id), a.id);
    LedgerAckFields(TopSync(l, o.item.status, o.reason, a.id), a.id, Raw(a.status), a.reason);
  }

  /** The ledger's status is `blocked` itself for a reply without parts, and else the fold of its parts. */
  lemma BlockedTop(q: QueueItem, l: LedgerSend, owners: seq<Owner>, attached: seq<Owner>, a: Ack)
    requires QueueSide(q, owners) && LedgerSide(q, l, owners, attached, {})
    requires a.id in q.bridgeIds && ApplyAck(q, a).Updated? && a.status == AckBlocked
    requires q.details.Some? ==> PartsOf(l.details) != []
    ensures var r := LedgerAfter(q, l, a);
            var folded := AggregateLedger(Statuses(AckParts(PartsOf(l.details), a.id, Blocked, a.reason)));
            if q.details.None? then r.top.status == Blocked else folded == Some(r.top.status)
  {
    RecordFound(q, l, owners, attached, a);
    if q.details.None? { StoredSingle(q, l, a); } else { StoredParts(q, l, a); }
  }

  lemma FoldOfSome(statuses: seq<Status>)
    ensures AggregateLedger(statuses).Some? <==> statuses != []
  {
  }

  lemma BlockedParts(ls: seq<Part>, ids: seq<BridgeId>, owners: seq<Owner>, a: Ack)
    requires AllOwned(ls, ids, owners, true) && a.id in ids && CleanReason(a.reason, a.id, ids)
    ensures var ls' := AckParts(ls, a.id, Blocked, a.reason);
            forall i | 0 <= i < |ls| :: if owners[i] == Some(a.id) then ls'[i].status == Blocked else ls'[i] == ls[i]
  {
    var ls' := AckParts(ls, a.id, Blocked, a.reason);
    AckKeepsOwners(ls, ids, owners, true, a.id, Blocked, a.reason);
    forall i | 0 <= i < |ls| ensures if owners[i] == Some(a.id) then ls'[i].status == Blocked else ls'[i] == ls[i] {
      assert owners[i].None? || owners[i] != Some(a.id) ==> ls'[i] == ls[i];
    }
  }

  lemma BlockedFailsQueue(q: QueueItem, owners: seq<Owner>, a: Ack)
    requires QueueSide(q, owners) && a.id in q.bridgeIds && a.status == AckBlocked && q.status != Sent
    ensures ApplyAck(q, a).Updated? && QueueAfter(q, a).status == Failed
  {
    QueueVerdict(q, owners, a);
    StatusStep(q, owners, a);
    ItemFields(q, a);
    FoldMembers(q.bridgeIds, AcksWith(q.acks, a), Local(q));
    assert InFold(RecordedStatus(AcksWith(q.acks, a), a.id), q.bridgeIds, AcksWith(q.acks, a), Local(q));
  }

  lemma BlockedStatuses(ls: seq<Part>, ls': seq<Part>, owners: seq<Owner>, id: BridgeId)
    requires |ls| == |ls'| == |owners|
    requires forall i | 0 <= i < |ls| :: if owners[i] == Some(id) then ls'[i].status == Blocked else ls'[i] == ls[i]
    ensures Failed in Statuses(ls') <==> exists i | 0 <= i < |owners| :: owners[i] != Some(id) && ls[i].status == Failed
    ensures AggregateLedger(Statuses(ls')) == Some(Failed) <==> Failed in Statuses(ls')
  {
    if i :| 0 <= i < |owners| && owners[i] != Some(id) && ls[i].status == Failed {
      assert Statuses(ls')[i] == Failed;
    }
  }

  lemma StoredParts(q: QueueItem, l: LedgerSend, a: Ack)
    requires ApplyAck(q, a).Updated? && LedgerMatches(l, a.id) && l.details.Some?
    ensures var r := LedgerAfter(q, l, a);
            && r.details.Some? && PartsOf(r.details) == AckParts(PartsOf(l.details), a.id, Raw(a.status), a.reason)
            && (PartsOf(r.details) != [] ==> AggregateLedger(Statuses(PartsOf(r.details))) == Some(r.top.status))
  {
    var o := ApplyAck(q, a);
    TopSyncKeeps(l, o.item.status, o.reason, a.id);
    LedgerAckFields(TopSync(l, o.item.status, o.reason, a.id), a.id, Raw(a.status), a.reason);
    FoldOfSome(Statuses(AckParts(PartsOf(l.details), a.id, Raw(a.status), a.reason)));
  }

  lemma OwnedMatches(l: LedgerSend, ids: seq<BridgeId>, owners: seq<Owner>, i: nat)
    requires l.details.Some? && AllOwned(PartsOf(l.details), ids, owners, true) && i < |owners| && owners[i].Some?
    ensures LedgerMatches(l, owners[i].value)
  {
    assert Owned(PartsOf(l.details)[i], ids, owners[i], true);
    assert References(PartsOf(l.details)[i], owners[i].value);
  }

  /** The two acks on the queue's side. */
  lemma BlockedThenSentQueue(q: QueueItem, b: BridgeId, c: BridgeId, a1: Ack, a2: Ack)
    requires QueueSide(q, [Some(b), Some(c)]) && q.acks == map[]
    requires q.status == Queued && q.bridgeIds == [b, c] && b != c
    requires a1.id == b && a1.status == AckBlocked && a2.id == c && a2.status == AckSent
    ensures ApplyAck(q, a1).Updated? && ApplyAck(QueueAfter(q, a1), a2).Updated?
    ensures QueueAfter(QueueAfter(q, a1), a2).status == Failed
  {
    var owners := [Some(b), Some(c)];
    BlockedFailsQueue(q, owners, a1);
    StoredQueue(q, owners, a1);
    SentAfterFailure(QueueAfter(q, a1), owners, b, c, a2);
  }

  lemma SentAfterFailure(q: QueueItem, owners: seq<Owner>, b: BridgeId, c: BridgeId, a: Ack)
    requires QueueSide(q, owners) && q.bridgeIds == [b, c] && b != c
    requires q.status == Failed && RecordedStatus(q.acks, b) == Failed
    requires a.id == c && a.status == AckSent && owners == [Some(b), Some(c)]
    ensures ApplyAck(q, a).Updated? && QueueAfter(q, a).status == Failed
  {
    NoLocal(PartsOf(q.details), [b, c], owners);
    StatusStep(q, owners, a);
    FoldOfTwo(b, c, AcksWith(q.acks, a));
    QueueVerdict(q, owners, a);
    ItemFields(q, a);
  }

  /** The two acks on the ledger's side. */
  lemma BlockedThenSentLedger(ps: seq<Part>, b: BridgeId, c: BridgeId, r1: string, r2: string)
    requires AllOwned(ps, [b, c], [Some(b), Some(c)], true)
    requires CleanReason(r1, b, [b, c]) && CleanReason(r2, c, [b, c]) && b != c
    ensures var ps1 := AckParts(ps, b, Blocked, r1);
            && AllOwned(ps1, [b, c], [Some(b), Some(c)], true)
            && AggregateLedger(Statuses(AckParts(ps1, c, Sent, r2))) == Some(Sent)
  {
    var owners := [Some(b), Some(c)];
    var ps1 := AckParts(ps, b, Blocked, r1);
    AckKeepsOwners(ps, [b, c], owners, true, b, Blocked, r1);
    AckKeepsOwners(ps1, [b, c], owners, true, c, Sent, r2);
    assert owners[0] == Some(b) && owners[1] == Some(c);
    assert Statuses(AckParts(ps1, c, Sent, r2)) == [Blocked, Sent];
  }

  /** Worse than unequal, for every reply of two bridged parts: the first is blocked, the second sent.  The
      queue is failed, and the ledger, which falls back to the last status, reads as sent. */
  lemma BlockedReadsAsSent(s: SendState, b: BridgeId, c: BridgeId, a1: Ack, a2: Ack)
    requires TwoParts(s, b, c) && a1.id == b && a1.status == AckBlocked && CleanReason(a1.reason, b, [b, c])
    requires Clean(a2, [b, c]) && a2.id == c && a2.status == AckSent
    ensures var t := SyncAck(SyncAck(s, a1), a2); t.queue.status == Failed && t.ledger.top.status == Sent
  {
    FreshInStep(s, [Some(b), Some(c)], []);
    FreshQueued(s.queue, b, c);
    BlockedThenSentQueue(s.queue, b, c, a1, a2);
    BlockedThenSentLedger(PartsOf(s.ledger.details), b, c, a1.reason, a2.reason);
    BothStored(s.queue, s.ledger, b, c, a1, a2);
  }

  lemma BothStored(q: QueueItem, l: LedgerSend, b: BridgeId, c: BridgeId, a1: Ack, a2: Ack)
    requires l.details.Some? && AllOwned(PartsOf(l.details), [b, c], [Some(b), Some(c)], true)
    requires AllOwned(AckParts(PartsOf(l.details), b, Blocked, a1.reason), [b, c], [Some(b), Some(c)], true)
    requires a1.id == b && a1.status == AckBlocked && a2.id == c && a2.status == AckSent
    requires ApplyAck(q, a1).Updated? && ApplyAck(QueueAfter(q, a1), a2).Updated?
    ensures Some(LedgerAfter(QueueAfter(q, a1), LedgerAfter(q, l, a1), a2).top.status)
            == AggregateLedger(
                 Statuses(AckParts(AckParts(PartsOf(l.details), b, Blocked, a1.reason), c, Sent, a2.reason)))
  {
    var owners := [Some(b), Some(c)];
    OwnedMatches(l, [b, c], owners, 0);
    StoredParts(q, l, a1);
    SecondStored(QueueAfter(q, a1), LedgerAfter(q, l, a1), [b, c], owners, a2);
  }

  lemma SecondStored(q: QueueItem, l: LedgerSend, ids: seq<BridgeId>, owners: seq<Owner>, a: Ack)
    requires l.details.Some? && AllOwned(PartsOf(l.details), ids, owners, true)
    requires |owners| == 2 && owners[1] == Some(a.id) && ApplyAck(q, a).Updated?
    ensures Some(LedgerAfter(q, l, a).top.status)
            == AggregateLedger(Statuses(AckParts(PartsOf(l.details), a.id, Raw(a.status), a.reason)))
  {
    OwnedMatches(l, ids, owners, 1);
    StoredParts(q, l, a);
  }

  lemma FreshQueued(q: QueueItem, b: BridgeId, c: BridgeId)
    requires QueueSide(q, [Some(b), Some(c)]) && q.acks == map[] && q.bridgeIds == [b, c]
    ensures q.status == Queued
  {
    NoLocal(PartsOf(q.details), [b, c], [Some(b), Some(c)]);
    FoldOfTwo(b, c, q.acks);
    assert [] + RecordedStatuses([b, c], q.acks) == [Queued, Queued];
  }
}
