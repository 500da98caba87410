/** The ledger follows the queue.

  Queue item and ledger record hold separate copies of a reply's parts and are folded by
  separate code.  The relation `InStep` ties them after every ack.  Its parameter `lag` is
  exactly the set of bridge ids whose latest ack the queue refused to store (a failed item
  cannot go back to queued) while the ledger stored it: with `lag` empty, every part status
  and the two aggregate statuses are equal.
 */
module LockStep {
  import opened Wrappers
  import opened SendParts
  import opened QueueProjection
  import opened LedgerProjection

  type Owner = Option<BridgeId>

  predicate HasId(p: Part, id: BridgeId) {
    p.messageId == id || p.bridgeId == id || p.externalId == id
  }

  /** A local part references no expected id.  A bridged part carries its owner's id in an id
      field; `exact` adds that it mentions no other expected id. */
  ghost predicate Owned(p: Part, ids: seq<BridgeId>, owner: Owner, exact: bool) {
    match owner
    case None => forall b | b in ids :: !References(p, b)
    case Some(c) => c in ids && HasId(p, c) && (exact ==> forall b | b in ids && b != c :: !References(p, b))
  }

  ghost predicate AllOwned(ps: seq<Part>, ids: seq<BridgeId>, owners: seq<Owner>, exact: bool) {
    |owners| == |ps| && forall i | 0 <= i < |ps| :: Owned(ps[i], ids, owners[i], exact)
  }

  /** A ledger part shows the status the queue recorded for its owner, unless the owner lags:
      then the queue recorded a failure that the ledger no longer shows. */
  ghost predicate Follows(p: Part, owner: Owner, acks: map<BridgeId, AckRecord>, lag: set<BridgeId>) {
    match owner
    case None => true
    case Some(c) =>
      && Delivery(p.status)
      && if c in lag then RecordedStatus(acks, c) == Failed && p.status != Failed
         else p.status == RecordedStatus(acks, c)
  }

  ghost predicate AllFollow(ps: seq<Part>, owners: seq<Owner>, acks: map<BridgeId, AckRecord>, lag: set<BridgeId>)
    requires |owners| == |ps|
  {
    forall i | 0 <= i < |ps| :: Follows(ps[i], owners[i], acks, lag)
  }

  ghost predicate SameLocal(qs: seq<Part>, ls: seq<Part>, owners: seq<Owner>)
    requires |owners| == |qs| == |ls|
  {
    forall i | 0 <= i < |qs| && owners[i].None? :: ls[i].status == qs[i].status
  }

  ghost predicate Covered(ids: seq<BridgeId>, owners: seq<Owner>) {
    forall b | b in ids :: Some(b) in owners
  }

  ghost predicate TerminalAcks(acks: map<BridgeId, AckRecord>) {
    forall b | b in acks :: acks[b].status in {Sent, Accepted, Failed}
  }

  ghost predicate LocalDelivery(qs: seq<Part>, owners: seq<Owner>)
    requires |owners| == |qs|
  {
    forall i | 0 <= i < |qs| && owners[i].None? :: Delivery(qs[i].status)
  }

  function Local(q: QueueItem): seq<Status> {
    LocalStatuses(PartsOf(q.details), q.bridgeIds)
  }

  /** The fold of what the item records now. */
  function Fold(q: QueueItem): Status {
    AggregateQueue(q.bridgeIds, q.acks, Local(q))
  }

  /** The queue item on its own: its parts are owned and its acks are terminal. */
  ghost predicate QueueShape(q: QueueItem, owners: seq<Owner>) {
    && Distinct(q.bridgeIds) && q.bridgeIds != []
    && (q.details.None? ==> |q.bridgeIds| == 1)
    && (q.details.Some? ==> Covered(q.bridgeIds, owners))
    && AllOwned(PartsOf(q.details), q.bridgeIds, owners, false)
    && LocalDelivery(PartsOf(q.details), owners)
    && TerminalAcks(q.acks)
  }

  /** ... and its status is the fold of what it records. */
  ghost predicate QueueSide(q: QueueItem, owners: seq<Owner>) {
    QueueShape(q, owners) && q.status == Fold(q)
  }

  /** The ledger record against the item. */
  ghost predicate LedgerSide(q: QueueItem, l: LedgerSend, owners: seq<Owner>, attached: seq<Owner>,
                             lag: set<BridgeId>) {
    && l.details.Some? == q.details.Some?
    && |owners| == |PartsOf(q.details)|
    && (q.details.None? ==> q.bridgeIds != [] && l.top.messageId == q.bridgeIds[0])
    && AllOwned(PartsOf(l.details), q.bridgeIds, owners, q.status != Sent)
    && AllOwned(l.attachments, q.bridgeIds, attached, q.status != Sent)
    && AllFollow(PartsOf(l.details), owners, q.acks, lag)
    && AllFollow(l.attachments, attached, q.acks, lag)
    && SameLocal(PartsOf(q.details), PartsOf(l.details), owners)
    && (lag == {} ==> l.top.status == q.status)
  }

  /** The ids that lag are expected, recorded as failed, and only a multi-part reply has them. */
  ghost predicate Lagging(q: QueueItem, lag: set<BridgeId>) {
    forall b | b in lag :: b in q.bridgeIds && q.details.Some? && RecordedStatus(q.acks, b) == Failed
  }

  ghost predicate InStep(q: QueueItem, l: LedgerSend, owners: seq<Owner>, attached: seq<Owner>, lag: set<BridgeId>) {
    QueueSide(q, owners) && LedgerSide(q, l, owners, attached, lag) && Lagging(q, lag)
  }

  /** An ack for an expected id that is not `blocked` and whose reason mentions no other expected id. */
  ghost predicate Clean(a: Ack, ids: seq<BridgeId>) {
    a.id in ids && a.status != AckBlocked && forall b | b in ids && b != a.id :: !Mentions(a.reason, b)
  }

  // ---------------------------------------------------------------- one ack, the queue's side

  lemma ExpectedUnchanged(q: QueueItem, a: Ack)
    requires Distinct(q.bridgeIds) && a.id in q.bridgeIds
    ensures ExpectedIds(q, a) == q.bridgeIds
  {
    var ids := q.bridgeIds + [a.id];
    assert ids[..|ids| - 1] == q.bridgeIds;
  }

  lemma BridgedAreReferenced(qs: seq<Part>, ids: seq<BridgeId>, owners: seq<Owner>)
    requires AllOwned(qs, ids, owners, false)
    ensures forall i | 0 <= i < |qs| :: ReferencesSome(qs[i], ids) <==> owners[i].Some?
    ensures forall i | 0 <= i < |qs| && owners[i].Some? :: owners[i].value in ids
  {
    forall i | 0 <= i < |qs|
      ensures (ReferencesSome(qs[i], ids) <==> owners[i].Some?) && (owners[i].Some? ==> owners[i].value in ids)
    {
      assert Owned(qs[i], ids, owners[i], false);
      if owners[i].Some? { assert References(qs[i], owners[i].value); }
    }
  }

  lemma LocalStatusesDelivery(qs: seq<Part>, ids: seq<BridgeId>, owners: seq<Owner>)
    requires AllOwned(qs, ids, owners, false) && LocalDelivery(qs, owners)
    ensures forall s | s in LocalStatuses(qs, ids) :: Delivery(s)
    ensures forall i | 0 <= i < |qs| :: ReferencesSome(qs[i], ids) <==> owners[i].Some?
  {
    BridgedAreReferenced(qs, ids, owners);
    LocalStatusesExact(qs, ids);
  }

  /** The status the queue computes is the fold over the recorded acks, single id or not. */
  lemma NextStatusIsFold(q: QueueItem, a: Ack)
    requires Distinct(q.bridgeIds) && a.id in q.bridgeIds
    ensures NextStatus(q, a)
            == AggregateQueue(q.bridgeIds, AcksWith(q.acks, a), LocalStatuses(PartsOf(q.details), q.bridgeIds))
  {
    ExpectedUnchanged(q, a);
    var ids, local := q.bridgeIds, LocalStatuses(PartsOf(q.details), q.bridgeIds);
    if |ids| == 1 && local == [] {
      var statuses := local + RecordedStatuses(ids, AcksWith(q.acks, a));
      assert ids[0] == a.id;
      assert statuses == [Mapped(a.status)];
    }
  }

  /** The statuses the queue folds. */
  ghost predicate InFold(s: Status, ids: seq<BridgeId>, acks: map<BridgeId, AckRecord>, local: seq<Status>) {
    s in local || exists b | b in ids :: RecordedStatus(acks, b) == s
  }

  lemma FoldMembers(ids: seq<BridgeId>, acks: map<BridgeId, AckRecord>, local: seq<Status>)
    ensures forall s :: s in local + RecordedStatuses(ids, acks) <==> InFold(s, ids, acks, local)
  {
    forall s ensures s in RecordedStatuses(ids, acks) <==> exists b | b in ids :: RecordedStatus(acks, b) == s {
      if b :| b in ids && RecordedStatus(acks, b) == s {
        var i :| 0 <= i < |ids| && ids[i] == b;
        assert RecordedStatuses(ids, acks)[i] == s;
      }
    }
  }

  /** How one new record can move the fold. */
  lemma FoldChange(ids: seq<BridgeId>, acks: map<BridgeId, AckRecord>, a: Ack, local: seq<Status>)
    requires a.id in ids && TerminalAcks(acks)
    requires forall s | s in local :: Delivery(s)
    ensures AggregateQueue(ids, acks, local) == Accepted ==> AggregateQueue(ids, AcksWith(acks, a), local) != Queued
    ensures AggregateQueue(ids, acks, local) == Failed && AggregateQueue(ids, AcksWith(acks, a), local) == Queued ==>
              RecordedStatus(acks, a.id) == Failed && a.status != AckFailed && a.status != AckBlocked
  {
    var acks' := AcksWith(acks, a);
    FoldMembers(ids, acks, local);
    FoldMembers(ids, acks', local);
    AggregateQueueIsMeet(ids, acks, local);
    AggregateQueueIsMeet(ids, acks', local);
    assert forall b | b in ids && b != a.id :: RecordedStatus(acks', b) == RecordedStatus(acks, b);
    assert RecordedStatus(acks', a.id) == Mapped(a.status);
  }

  lemma Outcome(q: QueueItem, a: Ack)
    requires a.id in q.bridgeIds
    ensures !ApplyAck(q, a).NotFound?
    ensures ApplyAck(q, a).Preserved? <==> q.status == Sent && NextStatus(q, a) != Sent
    ensures ApplyAck(q, a).Refused? <==> !ApplyAck(q, a).Preserved? && !Allowed(q.status, NextStatus(q, a))
    ensures ApplyAck(q, a).Updated? ==> ApplyAck(q, a).item == ItemWithAck(q, a)
  {
  }

  lemma FoldStep(ids: seq<BridgeId>, acks: map<BridgeId, AckRecord>, a: Ack, local: seq<Status>)
    requires a.id in ids && TerminalAcks(acks) && forall s | s in local :: Delivery(s)
    ensures var m, m' := AggregateQueue(ids, acks, local), AggregateQueue(ids, AcksWith(acks, a), local);
            && Delivery(m) && Delivery(m')
            && (m == Accepted ==> m' != Queued)
            && (m == Failed && m' == Queued ==>
                  RecordedStatus(acks, a.id) == Failed && a.status in {AckSent, AckAccepted})
  {
    FoldChange(ids, acks, a, local);
    AggregateQueueIsMeet(ids, AcksWith(acks, a), local);
    AggregateQueueIsMeet(ids, acks, local);
  }

  lemma StatusStep(q: QueueItem, owners: seq<Owner>, a: Ack)
    requires QueueSide(q, owners) && a.id in q.bridgeIds
    ensures NextStatus(q, a) == AggregateQueue(q.bridgeIds, AcksWith(q.acks, a), Local(q))
    ensures Delivery(q.status) && Delivery(NextStatus(q, a))
    ensures q.status == Accepted ==> NextStatus(q, a) != Queued
    ensures q.status == Failed && NextStatus(q, a) == Queued ==>
              RecordedStatus(q.acks, a.id) == Failed && a.status in {AckSent, AckAccepted}
  {
    NextStatusIsFold(q, a);
    LocalStatusesDelivery(PartsOf(q.details), q.bridgeIds, owners);
    FoldStep(q.bridgeIds, q.acks, a, Local(q));
  }

  lemma AllowedOnDelivery(current: Status, next: Status)
    requires Delivery(current) && Delivery(next)
    ensures Allowed(current, next)
            <==> !(current == Sent && next != Sent) && !(current in {Failed, Accepted} && next == Queued)
  {
  }

  /** Everything the queue says about one ack.  An ack is refused exactly when the item is
      failed and this ack lifts its last failure while something is still queued. */
  lemma QueueVerdict(q: QueueItem, owners: seq<Owner>, a: Ack)
    requires QueueSide(q, owners) && a.id in q.bridgeIds
    ensures ApplyAck(q, a).Refused? <==> q.status == Failed && NextStatus(q, a) == Queued
    ensures ApplyAck(q, a).Preserved? <==> q.status == Sent && NextStatus(q, a) != Sent
    ensures !ApplyAck(q, a).NotFound?
    ensures ApplyAck(q, a).Updated? ==> ApplyAck(q, a).item == ItemWithAck(q, a)
    ensures ApplyAck(q, a).Refused? ==>
              RecordedStatus(q.acks, a.id) == Failed && a.status in {AckSent, AckAccepted} && q.details.Some?
  {
    StatusStep(q, owners, a);
    AllowedOnDelivery(q.status, NextStatus(q, a));
    Outcome(q, a);
    if q.details.None? { SingleNeverQueued(q, a); }
  }

  lemma SingleNeverQueued(q: QueueItem, a: Ack)
    requires q.details.None? && |q.bridgeIds| == 1 && Distinct(q.bridgeIds) && a.id in q.bridgeIds
    ensures NextStatus(q, a) != Queued
  {
    ExpectedUnchanged(q, a);
  }

  // ---------------------------------------------------------------- one ack, part by part

  /** The reason names no other expected id. */
  ghost predicate CleanReason(reason: string, id: BridgeId, ids: seq<BridgeId>) {
    forall b | b in ids && b != id :: !Mentions(reason, b)
  }

  lemma AckKeepsOwner(p: Part, ids: seq<BridgeId>, owner: Owner, exact: bool, id: BridgeId, status: Status,
                      reason: string)
    requires Owned(p, ids, owner, exact) && id in ids && (exact ==> CleanReason(reason, id, ids))
    ensures Owned(AckPart(p, id, status, reason), ids, owner, exact)
    ensures owner == Some(id) ==> AckPart(p, id, status, reason).status == status
    ensures owner.None? || (exact && owner != Some(id)) ==> AckPart(p, id, status, reason) == p
  {
  }

  lemma AckKeepsOwners(ps: seq<Part>, ids: seq<BridgeId>, owners: seq<Owner>, exact: bool, id: BridgeId, status: Status,
                       reason: string)
    requires AllOwned(ps, ids, owners, exact) && id in ids && (exact ==> CleanReason(reason, id, ids))
    ensures AllOwned(AckParts(ps, id, status, reason), ids, owners, exact)
    ensures forall i | 0 <= i < |ps| ::
              var p := AckParts(ps, id, status, reason)[i];
              && (owners[i] == Some(id) ==> p.status == status)
              && (owners[i].None? || (exact && owners[i] != Some(id)) ==> p == ps[i])
              && (p == ps[i] || p.status == status)
  {
    forall i | 0 <= i < |ps| { AckKeepsOwner(ps[i], ids, owners[i], exact, id, status, reason); }
  }

  lemma LocalStatusesStable(ps: seq<Part>, ids: seq<BridgeId>, ps': seq<Part>, ids': seq<BridgeId>)
    requires |ps| == |ps'|
    requires forall i | 0 <= i < |ps| :: ReferencesSome(ps[i], ids) <==> ReferencesSome(ps'[i], ids')
    requires forall i | 0 <= i < |ps| && !ReferencesSome(ps[i], ids) :: ps'[i].status == ps[i].status
    ensures LocalStatuses(ps, ids) == LocalStatuses(ps', ids')
  {
    if ps != [] {
      assert ps[0] == ps[0] && ps'[0] == ps'[0];
      forall i | 0 <= i < |ps| - 1
        ensures ps[1..][i] == ps[i + 1] && ps'[1..][i] == ps'[i + 1]
      {}
      LocalStatusesStable(ps[1..], ids, ps'[1..], ids');
    }
  }

  lemma PartsStep(qs: seq<Part>, ids: seq<BridgeId>, owners: seq<Owner>, id: BridgeId, status: Status, reason: string)
    requires AllOwned(qs, ids, owners, false) && LocalDelivery(qs, owners) && id in ids
    ensures var qs' := AckParts(qs, id, status, reason);
            && AllOwned(qs', ids, owners, false) && LocalDelivery(qs', owners)
            && LocalStatuses(qs', ids) == LocalStatuses(qs, ids)
  {
    var qs' := AckParts(qs, id, status, reason);
    AckKeepsOwners(qs, ids, owners, false, id, status, reason);
    BridgedAreReferenced(qs, ids, owners);
    BridgedAreReferenced(qs', ids, owners);
    LocalStatusesStable(qs, ids, qs', ids);
  }

  /** Storing an ack keeps the queue side. */
  lemma QueueStep(q: QueueItem, owners: seq<Owner>, a: Ack)
    requires QueueSide(q, owners) && a.id in q.bridgeIds
    ensures QueueSide(ItemWithAck(q, a), owners)
    ensures ItemWithAck(q, a).bridgeIds == q.bridgeIds
    ensures PartsOf(ItemWithAck(q, a).details) == AckParts(PartsOf(q.details), a.id, Mapped(a.status), a.reason)
  {
    ExpectedUnchanged(q, a);
    NextStatusIsFold(q, a);
    PartsStep(PartsOf(q.details), q.bridgeIds, owners, a.id, Mapped(a.status), a.reason);
    ItemFields(q, a);
    ShapeKept(q, ItemWithAck(q, a), owners, a);
  }

  lemma ShapeKept(q: QueueItem, q': QueueItem, owners: seq<Owner>, a: Ack)
    requires QueueShape(q, owners) && q'.bridgeIds == q.bridgeIds && q'.details.Some? == q.details.Some?
    requires AllOwned(PartsOf(q'.details), q.bridgeIds, owners, false) && LocalDelivery(PartsOf(q'.details), owners)
    requires q'.acks == AcksWith(q.acks, a)
    ensures QueueShape(q', owners)
  {
  }

  lemma ItemFields(q: QueueItem, a: Ack)
    ensures var r := ItemWithAck(q, a);
            && r.status == NextStatus(q, a) && r.bridgeIds == ExpectedIds(q, a) && r.acks == AcksWith(q.acks, a)
            && r.details.Some? == q.details.Some?
            && PartsOf(r.details) == AckParts(PartsOf(q.details), a.id, Mapped(a.status), a.reason)
  {
  }

  lemma StoredQueue(q: QueueItem, owners: seq<Owner>, a: Ack)
    requires QueueSide(q, owners) && a.id in q.bridgeIds && ApplyAck(q, a).Updated?
    ensures var q' := QueueAfter(q, a);
            && q' == ItemWithAck(q, a) && QueueSide(q', owners) && q'.bridgeIds == q.bridgeIds
            && Local(q') == Local(q) && q'.acks == AcksWith(q.acks, a)
            && (q.status == Sent ==> q'.status == Sent)
  {
    QueueVerdict(q, owners, a);
    QueueStep(q, owners, a);
    ItemFields(q, a);
    PartsStep(PartsOf(q.details), q.bridgeIds, owners, a.id, Mapped(a.status), a.reason);
  }

  /** With nothing lagging, the ledger parts show exactly the statuses that the queue folds. */
  lemma SameStatuses(ids: seq<BridgeId>, acks: map<BridgeId, AckRecord>, qs: seq<Part>, ls: seq<Part>,
                     owners: seq<Owner>, s: Status)
    requires AllOwned(qs, ids, owners, false) && |ls| == |owners| && Covered(ids, owners)
    requires AllFollow(ls, owners, acks, {}) && SameLocal(qs, ls, owners)
    ensures s in Statuses(ls) <==> InFold(s, ids, acks, LocalStatuses(qs, ids))
  {
    BridgedAreReferenced(qs, ids, owners);
    LocalStatusesExact(qs, ids);
    if s in Statuses(ls) {
      var i :| 0 <= i < |ls| && ls[i].status == s;
      assert Follows(ls[i], owners[i], acks, {});
      assert owners[i].Some? ==> owners[i].value in ids;
      assert !ReferencesSome(qs[i], ids) ==> qs[i].status in LocalStatuses(qs, ids);
    }
    if InFold(s, ids, acks, LocalStatuses(qs, ids)) { FoldShown(ids, acks, qs, ls, owners, s); }
  }

  lemma FoldShown(ids: seq<BridgeId>, acks: map<BridgeId, AckRecord>, qs: seq<Part>, ls: seq<Part>, owners: seq<Owner>,
                  s: Status)
    requires |qs| == |ls| == |owners| && Covered(ids, owners)
    requires forall i | 0 <= i < |qs| :: ReferencesSome(qs[i], ids) <==> owners[i].Some?
    requires AllFollow(ls, owners, acks, {}) && SameLocal(qs, ls, owners)
    requires InFold(s, ids, acks, LocalStatuses(qs, ids))
    ensures s in Statuses(ls)
  {
    LocalStatusesExact(qs, ids);
    if s in LocalStatuses(qs, ids) {
      var i :| 0 <= i < |qs| && !ReferencesSome(qs[i], ids) && qs[i].status == s;
      assert Statuses(ls)[i] == s;
    } else {
      var b :| b in ids && RecordedStatus(acks, b) == s;
      AckShown(ids, acks, ls, owners, b);
    }
  }

  lemma AckShown(ids: seq<BridgeId>, acks: map<BridgeId, AckRecord>, ls: seq<Part>, owners: seq<Owner>, b: BridgeId)
    requires |ls| == |owners| && Covered(ids, owners) && b in ids && AllFollow(ls, owners, acks, {})
    ensures RecordedStatus(acks, b) in Statuses(ls)
  {
    var i :| 0 <= i < |owners| && owners[i] == Some(b);
    assert Follows(ls[i], owners[i], acks, {});
    assert Statuses(ls)[i] == RecordedStatus(acks, b);
  }

  /** The queue's fold and the ledger's fold are the same function of the statuses they see. */
  lemma FoldsOfSameStatuses(statuses: seq<Status>, ids: seq<BridgeId>, acks: map<BridgeId, AckRecord>,
                            local: seq<Status>)
    requires ids != [] && forall s | s in local :: Delivery(s)
    requires forall b | b in ids :: Delivery(RecordedStatus(acks, b))
    requires forall s :: s in statuses <==> InFold(s, ids, acks, local)
    ensures AggregateLedger(statuses) == Some(AggregateQueue(ids, acks, local))
  {
    FoldMembers(ids, acks, local);
    AggregateQueueIsMeet(ids, acks, local);
    var all := local + RecordedStatuses(ids, acks);
    assert InFold(RecordedStatus(acks, ids[0]), ids, acks, local);
    AggregateLedgerIsMeet(statuses);
    MeetUnique(AggregateLedger(statuses).value, AggregateQueue(ids, acks, local), Elements(statuses), Elements(all));
  }

  /** With nothing lagging, the two aggregates are equal. */
  lemma AggregatesAgree(q: QueueItem, ls: seq<Part>, owners: seq<Owner>)
    requires QueueShape(q, owners) && q.details.Some? && |ls| == |owners|
    requires AllFollow(ls, owners, q.acks, {}) && SameLocal(PartsOf(q.details), ls, owners)
    ensures AggregateLedger(Statuses(ls)) == Some(Fold(q))
  {
    LocalStatusesDelivery(PartsOf(q.details), q.bridgeIds, owners);
    forall s ensures s in Statuses(ls) <==> InFold(s, q.bridgeIds, q.acks, Local(q)) {
      SameStatuses(q.bridgeIds, q.acks, PartsOf(q.details), ls, owners, s);
    }
    FoldsOfSameStatuses(Statuses(ls), q.bridgeIds, q.acks, Local(q));
  }
}
