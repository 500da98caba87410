/** Lock-step across retries.  A retry keeps ledger and queue in step exactly when it finds every ledger part
    under its owner only, which can fail for a sent item, and the queue's status, which a retry computes
    without the local parts, hides no failed local part. */
module LockStepRetries {
  import opened Wrappers
  import opened SendParts
  import opened QueueProjection
  import opened LedgerProjection
  import opened SendSync
  import opened LockStep
  import opened LockStepRuns
  import opened DeliverySafety
  import opened RetryFencing
  import opened LateAcks

  function NextOwner(o: Owner, op: RetryOp): Owner {
    if o.Some? && o.value in op.dead then Some(op.next) else o
  }

  function NextOwners(owners: seq<Owner>, op: RetryOp): (r: seq<Owner>)
    ensures |r| == |owners|
    ensures forall i | 0 <= i < |owners| :: r[i] == NextOwner(owners[i], op)
  {
    seq(|owners|, i requires 0 <= i < |owners| => NextOwner(owners[i], op))
  }

  /** A candidate of the retry: a superseded id or the new one. */
  predicate Candidate(op: RetryOp, d: BridgeId) {
    d in op.dead || d == op.next
  }

  /** The parts know nothing of candidates that are not expected. */
  ghost predicate ForeignUnused(ps: seq<Part>, ids: seq<BridgeId>, op: RetryOp) {
    forall d: BridgeId | Candidate(op, d) && d !in ids :: Unused(ps, d)
  }

  /** The reason names no surviving id. */
  ghost predicate CleanRetry(ids: seq<BridgeId>, op: RetryOp) {
    && (op.next in ids ==> op.next in op.dead)
    && forall b | b in ids && b !in op.dead :: !Mentions(op.reason, b)
  }

  /** The retry supersedes an expected id, and its new id is fresh or already one of its candidates. */
  ghost predicate FreshRetry(q: QueueItem, l: LedgerSend, op: RetryOp) {
    && (exists b | b in q.bridgeIds :: b in op.dead)
    && CleanRetry(q.bridgeIds, op)
    && ForeignUnused(PartsOf(q.details), q.bridgeIds, op)
    && ForeignUnused(PartsOf(l.details), q.bridgeIds, op)
    && ForeignUnused(l.attachments, q.bridgeIds, op)
  }

  /** No failed local part, or some surviving ack is failed anyway. */
  ghost predicate NothingHidden(q: QueueItem, op: RetryOp) {
    Failed in Local(q) ==> exists b | b in q.bridgeIds :: b !in op.dead && RecordedStatus(q.acks, b) == Failed
  }

  /** The retry finds the part under its owner only: a part of a surviving id references no other
      expected id, and the part of a superseded one has no surviving id in a field. */
  ghost predicate Separate(p: Part, ids: seq<BridgeId>, owner: Owner, op: RetryOp) {
    match owner
    case None => true
    case Some(b) =>
      if b in op.dead then forall c | c in ids && c !in op.dead :: !HasId(p, c)
      else forall c | c in ids && c != b :: !References(p, c)
  }

  ghost predicate AllSeparate(ps: seq<Part>, ids: seq<BridgeId>, owners: seq<Owner>, op: RetryOp)
    requires |owners| == |ps|
  {
    forall i | 0 <= i < |ps| :: Separate(ps[i], ids, owners[i], op)
  }

  // ---------------------------------------------------------------- parts

  /** A local part is untouched, a superseded one is queued again, and a separate one is found under its
      owner only. */
  ghost predicate RetriedAs(p: Part, p': Part, ids: seq<BridgeId>, owner: Owner, op: RetryOp) {
    && (owner.None? ==> p' == p)
    && (owner.Some? && owner.value in op.dead ==> ReferencesAny(p, op.dead) && p'.status == Queued)
    && (Separate(p, ids, owner, op) && owner.Some? && owner.value !in op.dead ==> p' == p)
  }

  lemma RetriedMembers(ids: seq<BridgeId>, op: RetryOp)
    requires CleanRetry(ids, op)
    ensures forall b :: b in RetryIds(ids, op.dead, op.next) <==> b == op.next || (b in ids && b !in op.dead)
  {
    RetryIdsExact(ids, op);
    forall b: BridgeId | b != op.next { ReplacedMembers(ids, op.dead, op.next, b); }
  }

  lemma RetryKeepsOwner(p: Part, ids: seq<BridgeId>, owner: Owner, op: RetryOp)
    requires Owned(p, ids, owner, false) && CleanRetry(ids, op)
    requires forall d: BridgeId | Candidate(op, d) && d !in ids :: !References(p, d)
    ensures var p' := RetryPart(p, op.dead, op.next, op.reason);
            && Owned(p', RetryIds(ids, op.dead, op.next), NextOwner(owner, op), false)
            && RetriedAs(p, p', ids, owner, op)
  {
    RetriedMembers(ids, op);
    if owner.Some? { assert References(p, owner.value); }
    if owner.None? { assert forall d | d in op.dead :: !References(p, d); }
  }

  lemma SeparateBecomesExact(p: Part, ids: seq<BridgeId>, owner: Owner, op: RetryOp)
    requires Owned(p, ids, owner, false) && CleanRetry(ids, op) && Separate(p, ids, owner, op)
    requires forall d: BridgeId | Candidate(op, d) && d !in ids :: !References(p, d)
    ensures Owned(RetryPart(p, op.dead, op.next, op.reason), RetryIds(ids, op.dead, op.next),
                  NextOwner(owner, op), true)
  {
    RetryKeepsOwner(p, ids, owner, op);
    RetriedMembers(ids, op);
    if owner.Some? && owner.value in op.dead { assert ReferencesAny(p, op.dead); }
  }

  /** A part that was not separate is not exactly owned after the retry, unless the retry found it. */
  lemma ExactWasSeparate(p: Part, ids: seq<BridgeId>, owner: Owner, op: RetryOp)
    requires Owned(p, ids, owner, false) && CleanRetry(ids, op)
    requires forall d: BridgeId | Candidate(op, d) && d !in ids :: !References(p, d)
    requires Owned(RetryPart(p, op.dead, op.next, op.reason), RetryIds(ids, op.dead, op.next),
                   NextOwner(owner, op), true)
    requires owner.Some? && owner.value !in op.dead ==> RetryPart(p, op.dead, op.next, op.reason).status != Queued
    ensures Separate(p, ids, owner, op)
  {
    RetryKeepsOwner(p, ids, owner, op);
    RetriedMembers(ids, op);
    var p' := RetryPart(p, op.dead, op.next, op.reason);
    if owner.Some? && owner.value in op.dead {
      forall c | c in ids && c !in op.dead ensures !HasId(p, c) {
        assert c != op.next && !References(p', c);
      }
    } else if owner.Some? {
      assert !ReferencesAny(p, op.dead);
      forall c | c in ids && c != owner.value ensures !References(p, c) {
        assert c !in op.dead ==> c in RetryIds(ids, op.dead, op.next);
      }
    }
  }

  /** Exactly owned parts are separate under every retry. */
  lemma OwnedIsSeparate(ps: seq<Part>, ids: seq<BridgeId>, owners: seq<Owner>, op: RetryOp)
    requires AllOwned(ps, ids, owners, true)
    ensures AllSeparate(ps, ids, owners, op)
  {
    forall i | 0 <= i < |ps| ensures Separate(ps[i], ids, owners[i], op) {
      assert Owned(ps[i], ids, owners[i], true);
    }
  }

  lemma RetryKeepsOwners(ps: seq<Part>, ids: seq<BridgeId>, owners: seq<Owner>, op: RetryOp)
    requires AllOwned(ps, ids, owners, false) && ForeignUnused(ps, ids, op) && CleanRetry(ids, op)
    ensures AllOwned(RetryParts(ps, op.dead, op.next, op.reason), RetryIds(ids, op.dead, op.next),
                     NextOwners(owners, op), false)
    ensures forall i | 0 <= i < |ps| ::
              RetriedAs(ps[i], RetryParts(ps, op.dead, op.next, op.reason)[i], ids, owners[i], op)
  {
    var ps', ids' := RetryParts(ps, op.dead, op.next, op.reason), RetryIds(ids, op.dead, op.next);
    forall i | 0 <= i < |ps|
      ensures Owned(ps'[i], ids', NextOwners(owners, op)[i], false) && RetriedAs(ps[i], ps'[i], ids, owners[i], op)
    {
      assert Owned(ps[i], ids, owners[i], false);
      RetryKeepsOwner(ps[i], ids, owners[i], op);
    }
  }

  lemma SeparateBecomeExact(ps: seq<Part>, ids: seq<BridgeId>, owners: seq<Owner>, op: RetryOp)
    requires AllOwned(ps, ids, owners, false) && ForeignUnused(ps, ids, op) && CleanRetry(ids, op)
    requires AllSeparate(ps, ids, owners, op)
    ensures AllOwned(RetryParts(ps, op.dead, op.next, op.reason), RetryIds(ids, op.dead, op.next),
                     NextOwners(owners, op), true)
  {
    var ps', ids' := RetryParts(ps, op.dead, op.next, op.reason), RetryIds(ids, op.dead, op.next);
    forall i | 0 <= i < |ps| ensures Owned(ps'[i], ids', NextOwners(owners, op)[i], true) {
      assert Owned(ps[i], ids, owners[i], false) && Separate(ps[i], ids, owners[i], op);
      SeparateBecomesExact(ps[i], ids, owners[i], op);
    }
  }

  lemma RetryFollows(ps: seq<Part>, ids: seq<BridgeId>, owners: seq<Owner>, acks: map<BridgeId, AckRecord>,
                     lag: set<BridgeId>, op: RetryOp)
    requires AllOwned(ps, ids, owners, false) && ForeignUnused(ps, ids, op) && CleanRetry(ids, op)
    requires AllSeparate(ps, ids, owners, op) && AllFollow(ps, owners, acks, lag) && forall b | b in lag :: b in ids
    ensures AllFollow(RetryParts(ps, op.dead, op.next, op.reason), NextOwners(owners, op),
                      KeepAcks(acks, op), lag - op.dead)
  {
    RetryKeepsOwners(ps, ids, owners, op);
    forall i | 0 <= i < |ps|
      ensures Follows(RetryParts(ps, op.dead, op.next, op.reason)[i], NextOwners(owners, op)[i],
                      KeepAcks(acks, op), lag - op.dead)
    {
      assert Follows(ps[i], owners[i], acks, lag) && Owned(ps[i], ids, owners[i], false);
      assert Separate(ps[i], ids, owners[i], op);
      assert RetriedAs(ps[i], RetryParts(ps, op.dead, op.next, op.reason)[i], ids, owners[i], op);
    }
  }

  /** Parts that show sent throughout follow a retry only if they are separate. */
  lemma FollowingWereSeparate(ps: seq<Part>, ids: seq<BridgeId>, owners: seq<Owner>, acks: map<BridgeId, AckRecord>,
                              op: RetryOp)
    requires AllOwned(ps, ids, owners, false) && ForeignUnused(ps, ids, op) && CleanRetry(ids, op)
    requires forall b | b in ids :: RecordedStatus(acks, b) == Sent
    requires AllOwned(RetryParts(ps, op.dead, op.next, op.reason), RetryIds(ids, op.dead, op.next),
                      NextOwners(owners, op), true)
    requires AllFollow(RetryParts(ps, op.dead, op.next, op.reason), NextOwners(owners, op), KeepAcks(acks, op), {})
    ensures AllSeparate(ps, ids, owners, op)
  {
    var ps' := RetryParts(ps, op.dead, op.next, op.reason);
    forall i | 0 <= i < |ps| ensures Separate(ps[i], ids, owners[i], op) {
      assert Owned(ps[i], ids, owners[i], false) && Follows(ps'[i], NextOwners(owners, op)[i], KeepAcks(acks, op), {});
      assert Owned(ps'[i], RetryIds(ids, op.dead, op.next), NextOwners(owners, op)[i], true);
      ExactWasSeparate(ps[i], ids, owners[i], op);
    }
  }

  // ---------------------------------------------------------------- the queue's side

  /** The retry's fold over the ids alone against the fold that also sees the local parts. */
  lemma RequeuedIsFold(ids: seq<BridgeId>, acks: map<BridgeId, AckRecord>, local: seq<Status>, next: BridgeId)
    requires next in ids && next !in acks && TerminalAcks(acks) && forall s | s in local :: Delivery(s)
    ensures AggregateRequeued(ids, acks) == AggregateQueue(ids, acks, local)
            <==> (Failed in local ==> exists b | b in ids :: RecordedStatus(acks, b) == Failed)
    ensures AggregateRequeued(ids, acks) in {Queued, Failed}
  {
    FoldMembers(ids, acks, local);
    FoldMembers(ids, acks, []);
    assert [] + RecordedStatuses(ids, acks) == RecordedStatuses(ids, acks);
    assert RecordedStatus(acks, next) == Queued;
    assert InFold(Queued, ids, acks, local) && InFold(Queued, ids, acks, []);
    AggregateQueueIsMeet(ids, acks, local);
  }

  lemma RetryQueueFields(q: QueueItem, op: RetryOp)
    requires QueueReferencesAny(q, op.dead) && q.status != Rejected
    ensures var r := QueueRetry(q, op);
            && r.bridgeIds == RetryIds(q.bridgeIds, op.dead, op.next) && r.acks == KeepAcks(q.acks, op)
            && r.status == AggregateRequeued(r.bridgeIds, r.acks)
            && r.details.Some? == q.details.Some?
            && PartsOf(r.details) == RetryParts(PartsOf(q.details), op.dead, op.next, op.reason)
  {
  }

  /** A retry of an expected id changes the item. */
  lemma RetryFound(q: QueueItem, owners: seq<Owner>, op: RetryOp)
    requires QueueSide(q, owners) && exists b | b in q.bridgeIds :: b in op.dead
    ensures QueueReferencesAny(q, op.dead) && q.status != Rejected
  {
    var b :| b in q.bridgeIds && b in op.dead;
    assert QueueReferences(q, b);
    LocalStatusesDelivery(PartsOf(q.details), q.bridgeIds, owners);
    AggregateQueueIsMeet(q.bridgeIds, q.acks, Local(q));
  }

  lemma LocalAcrossRetry(qs: seq<Part>, ids: seq<BridgeId>, owners: seq<Owner>, op: RetryOp)
    requires AllOwned(qs, ids, owners, false) && LocalDelivery(qs, owners)
    requires ForeignUnused(qs, ids, op) && CleanRetry(ids, op)
    ensures var qs', ids' := RetryParts(qs, op.dead, op.next, op.reason), RetryIds(ids, op.dead, op.next);
            && AllOwned(qs', ids', NextOwners(owners, op), false) && LocalDelivery(qs', NextOwners(owners, op))
            && LocalStatuses(qs', ids') == LocalStatuses(qs, ids)
  {
    var qs', ids' := RetryParts(qs, op.dead, op.next, op.reason), RetryIds(ids, op.dead, op.next);
    RetryKeepsOwners(qs, ids, owners, op);
    forall i | 0 <= i < |qs| && owners[i].None? ensures qs'[i] == qs[i] {
      assert RetriedAs(qs[i], qs'[i], ids, owners[i], op);
    }
    BridgedAreReferenced(qs, ids, owners);
    BridgedAreReferenced(qs', ids', NextOwners(owners, op));
    LocalStatusesStable(qs, ids, qs', ids');
  }

  lemma CoveredAcrossRetry(ids: seq<BridgeId>, owners: seq<Owner>, op: RetryOp)
    requires Covered(ids, owners) && CleanRetry(ids, op) && exists b | b in ids :: b in op.dead
    ensures Covered(RetryIds(ids, op.dead, op.next), NextOwners(owners, op))
  {
    RetriedMembers(ids, op);
    forall c | c in RetryIds(ids, op.dead, op.next) ensures Some(c) in NextOwners(owners, op) {
      var b: BridgeId;
      if c == op.next { b :| b in ids && b in op.dead; } else { b := c; }
      assert Some(b) in owners;
      var i :| 0 <= i < |owners| && owners[i] == Some(b);
      assert NextOwners(owners, op)[i] == Some(c);
    }
  }

  /** A retry keeps the shape of the item, and its status is the fold exactly when nothing is hidden. */
  lemma RetryQueueSide(q: QueueItem, l: LedgerSend, owners: seq<Owner>, op: RetryOp)
    requires QueueSide(q, owners) && FreshRetry(q, l, op)
    ensures QueueShape(QueueRetry(q, op), NextOwners(owners, op))
    ensures Local(QueueRetry(q, op)) == Local(q)
    ensures QueueRetry(q, op).status == Fold(QueueRetry(q, op)) <==> NothingHidden(q, op)
    ensures QueueRetry(q, op).status in {Queued, Failed}
  {
    RetryFound(q, owners, op);
    RetryQueueFields(q, op);
    RetryIdsExact(q.bridgeIds, op);
    LocalAcrossRetry(PartsOf(q.details), q.bridgeIds, owners, op);
    if q.details.Some? { CoveredAcrossRetry(q.bridgeIds, owners, op); }
    else { SingleReplaced(q.bridgeIds, op); }
    var ids', acks' := RetryIds(q.bridgeIds, op.dead, op.next), KeepAcks(q.acks, op);
    LocalStatusesDelivery(PartsOf(q.details), q.bridgeIds, owners);
    RequeuedIsFold(ids', acks', Local(q), op.next);
    FailedSurvives(q.bridgeIds, q.acks, op);
  }

  lemma SingleReplaced(ids: seq<BridgeId>, op: RetryOp)
    requires |ids| == 1 && ids[0] in op.dead
    ensures RetryIds(ids, op.dead, op.next) == [op.next]
  {
    var r := ReplaceAll(ids, op.dead, op.next);
    assert r == [op.next] && Distinct(r);
  }

  lemma FailedSurvives(ids: seq<BridgeId>, acks: map<BridgeId, AckRecord>, op: RetryOp)
    requires CleanRetry(ids, op)
    ensures (exists b | b in RetryIds(ids, op.dead, op.next) :: RecordedStatus(KeepAcks(acks, op), b) == Failed)
            <==> exists b | b in ids :: b !in op.dead && RecordedStatus(acks, b) == Failed
  {
    RetriedMembers(ids, op);
    if b :| b in ids && b !in op.dead && RecordedStatus(acks, b) == Failed {
      assert b in RetryIds(ids, op.dead, op.next) && RecordedStatus(KeepAcks(acks, op), b) == Failed;
    }
    if b :| b in RetryIds(ids, op.dead, op.next) && RecordedStatus(KeepAcks(acks, op), b) == Failed {
      assert b != op.next;
    }
  }

  // ---------------------------------------------------------------- both sides

  lemma RetryLedgerFields(q: QueueItem, l: LedgerSend, owners: seq<Owner>, attached: seq<Owner>, lag: set<BridgeId>,
                          op: RetryOp)
    requires QueueShape(q, owners) && LedgerSide(q, l, owners, attached, lag)
    requires exists b | b in q.bridgeIds :: b in op.dead
    ensures var r := LedgerRetry(l, op);
            && r.details.Some? == q.details.Some?
            && PartsOf(r.details) == RetryParts(PartsOf(l.details), op.dead, op.next, op.reason)
            && r.attachments == RetryParts(l.attachments, op.dead, op.next, op.reason)
            && r.top.messageId == ReplaceField(l.top.messageId, op.dead, op.next)
            && (q.details.None? ==> r.top.status == Queued)
            && (q.details.Some? && AggregateLedger(Statuses(PartsOf(r.details))).Some? ==>
                  r.top.status == AggregateLedger(Statuses(PartsOf(r.details))).value)
  {
    var b :| b in q.bridgeIds && b in op.dead;
    RecordMatches(q, l, owners, b);
    if q.details.Some? {
      assert Some(b) in owners;
      var i :| 0 <= i < |owners| && owners[i] == Some(b);
      var p := PartsOf(l.details)[i];
      assert Owned(p, q.bridgeIds, owners[i], q.status != Sent);
      assert ReferencesAny(p, op.dead);
      assert SomeReferencesAny(l.details.value.Parts(), op.dead);
    }
  }

  /** The parts of the ledger record, owned at least loosely whatever the status. */
  lemma LooselyOwned(q: QueueItem, l: LedgerSend, owners: seq<Owner>, attached: seq<Owner>, lag: set<BridgeId>)
    requires LedgerSide(q, l, owners, attached, lag)
    ensures AllOwned(PartsOf(l.details), q.bridgeIds, owners, false)
    ensures AllOwned(l.attachments, q.bridgeIds, attached, false)
  {
    if q.status != Sent {
      OwnedWeaken(PartsOf(l.details), q.bridgeIds, owners, false);
      OwnedWeaken(l.attachments, q.bridgeIds, attached, false);
    }
  }

  /** Parts and attachments of the record are separate. */
  ghost predicate SeparateRecord(q: QueueItem, l: LedgerSend, owners: seq<Owner>, attached: seq<Owner>, op: RetryOp)
  {
    && |owners| == |PartsOf(l.details)| && |attached| == |l.attachments|
    && AllSeparate(PartsOf(l.details), q.bridgeIds, owners, op) && AllSeparate(l.attachments, q.bridgeIds, attached, op)
  }

  lemma RetryLedgerParts(q: QueueItem, l: LedgerSend, owners: seq<Owner>, attached: seq<Owner>, lag: set<BridgeId>,
                         op: RetryOp)
    requires InStep(q, l, owners, attached, lag) && FreshRetry(q, l, op) && SeparateRecord(q, l, owners, attached, op)
    ensures var q', l' := QueueRetry(q, op), LedgerRetry(l, op);
            var owners', attached' := NextOwners(owners, op), NextOwners(attached, op);
            && AllOwned(PartsOf(l'.details), q'.bridgeIds, owners', true)
            && AllOwned(l'.attachments, q'.bridgeIds, attached', true)
            && AllFollow(PartsOf(l'.details), owners', q'.acks, lag - op.dead)
            && AllFollow(l'.attachments, attached', q'.acks, lag - op.dead)
  {
    RetryFound(q, owners, op);
    RetryQueueFields(q, op);
    RetryLedgerFields(q, l, owners, attached, lag, op);
    LooselyOwned(q, l, owners, attached, lag);
    SeparateBecomeExact(PartsOf(l.details), q.bridgeIds, owners, op);
    SeparateBecomeExact(l.attachments, q.bridgeIds, attached, op);
    RetryFollows(PartsOf(l.details), q.bridgeIds, owners, q.acks, lag, op);
    RetryFollows(l.attachments, q.bridgeIds, attached, q.acks, lag, op);
  }

  lemma RetryLocalParts(q: QueueItem, l: LedgerSend, owners: seq<Owner>, attached: seq<Owner>, lag: set<BridgeId>,
                        op: RetryOp)
    requires InStep(q, l, owners, attached, lag) && FreshRetry(q, l, op)
    ensures var q', l' := QueueRetry(q, op), LedgerRetry(l, op);
            && |PartsOf(q'.details)| == |PartsOf(l'.details)| == |owners|
            && SameLocal(PartsOf(q'.details), PartsOf(l'.details), NextOwners(owners, op))
  {
    RetryFound(q, owners, op);
    RetryQueueFields(q, op);
    RetryLedgerFields(q, l, owners, attached, lag, op);
    LooselyOwned(q, l, owners, attached, lag);
    SameLocalAcrossRetry(PartsOf(q.details), PartsOf(l.details), q.bridgeIds, owners, op);
  }

  lemma SameLocalAcrossRetry(qs: seq<Part>, ls: seq<Part>, ids: seq<BridgeId>, owners: seq<Owner>, op: RetryOp)
    requires AllOwned(qs, ids, owners, false) && AllOwned(ls, ids, owners, false) && SameLocal(qs, ls, owners)
    requires ForeignUnused(qs, ids, op) && ForeignUnused(ls, ids, op) && CleanRetry(ids, op)
    ensures SameLocal(RetryParts(qs, op.dead, op.next, op.reason), RetryParts(ls, op.dead, op.next, op.reason),
                      NextOwners(owners, op))
  {
    var qs', ls' := RetryParts(qs, op.dead, op.next, op.reason), RetryParts(ls, op.dead, op.next, op.reason);
    RetryKeepsOwners(qs, ids, owners, op);
    RetryKeepsOwners(ls, ids, owners, op);
    forall i | 0 <= i < |qs| && NextOwners(owners, op)[i].None? ensures ls'[i].status == qs'[i].status {
      assert RetriedAs(qs[i], qs'[i], ids, owners[i], op) && RetriedAs(ls[i], ls'[i], ids, owners[i], op);
    }
  }

  lemma RetryTopStatus(q: QueueItem, l: LedgerSend, owners: seq<Owner>, attached: seq<Owner>, lag: set<BridgeId>,
                       op: RetryOp)
    requires InStep(q, l, owners, attached, lag) && FreshRetry(q, l, op) && lag - op.dead == {}
    requires SeparateRecord(q, l, owners, attached, op)
    ensures LedgerRetry(l, op).top.status == Fold(QueueRetry(q, op))
  {
    RetryQueueSide(q, l, owners, op);
    RetryLedgerFields(q, l, owners, attached, lag, op);
    RetryLedgerParts(q, l, owners, attached, lag, op);
    RetryLocalParts(q, l, owners, attached, lag, op);
    RetryFound(q, owners, op);
    RetryQueueFields(q, op);
    var q' := QueueRetry(q, op);
    if q.details.Some? {
      AggregatesAgree(q', PartsOf(LedgerRetry(l, op).details), NextOwners(owners, op));
    } else {
      SingleReplaced(q.bridgeIds, op);
      SingleFold(q', op.next);
    }
  }

  lemma SingleFold(q: QueueItem, next: BridgeId)
    requires q.bridgeIds == [next] && next !in q.acks && q.details.None?
    ensures Fold(q) == Queued
  {
    assert Local(q) + RecordedStatuses(q.bridgeIds, q.acks) == [Queued];
  }

  lemma RetryLagging(q: QueueItem, lag: set<BridgeId>, op: RetryOp)
    requires Lagging(q, lag) && CleanRetry(q.bridgeIds, op) && QueueReferencesAny(q, op.dead) && q.status != Rejected
    ensures Lagging(QueueRetry(q, op), lag - op.dead)
  {
    RetryQueueFields(q, op);
    RetriedMembers(q.bridgeIds, op);
  }

  /** A retry of separate parts keeps ledger and queue in step if and only if the status that the queue
      computes from the ids alone hides no failed local part. */
  lemma SeparateRetryInStep(q: QueueItem, l: LedgerSend, owners: seq<Owner>, attached: seq<Owner>, lag: set<BridgeId>,
                            op: RetryOp)
    requires InStep(q, l, owners, attached, lag) && FreshRetry(q, l, op) && SeparateRecord(q, l, owners, attached, op)
    ensures RetriedInStep(q, l, owners, attached, lag, op) <==> NothingHidden(q, op)
    ensures lag - op.dead == {} ==>
              (LedgerRetry(l, op).top.status == QueueRetry(q, op).status <==> NothingHidden(q, op))
  {
    RetryFound(q, owners, op);
    RetryQueueFields(q, op);
    RetryQueueSide(q, l, owners, op);
    RetryLedgerFields(q, l, owners, attached, lag, op);
    RetryLedgerParts(q, l, owners, attached, lag, op);
    RetryLocalParts(q, l, owners, attached, lag, op);
    RetryLagging(q, lag, op);
    if lag - op.dead == {} { RetryTopStatus(q, l, owners, attached, lag, op); }
    if q.details.None? { SingleReplaced(q.bridgeIds, op); }
    LedgerSideAssembled(QueueRetry(q, op), LedgerRetry(l, op), NextOwners(owners, op), NextOwners(attached, op),
                        lag - op.dead);
  }

  lemma LedgerSideAssembled(q: QueueItem, l: LedgerSend, owners: seq<Owner>, attached: seq<Owner>, lag: set<BridgeId>)
    requires l.details.Some? == q.details.Some? && |owners| == |PartsOf(q.details)| && q.status != Sent
    requires q.details.None? ==> q.bridgeIds != [] && l.top.messageId == q.bridgeIds[0]
    requires AllOwned(PartsOf(l.details), q.bridgeIds, owners, true)
    requires AllOwned(l.attachments, q.bridgeIds, attached, true)
    requires AllFollow(PartsOf(l.details), owners, q.acks, lag) && AllFollow(l.attachments, attached, q.acks, lag)
    requires SameLocal(PartsOf(q.details), PartsOf(l.details), owners)
    ensures LedgerSide(q, l, owners, attached, lag) <==> (lag == {} ==> l.top.status == q.status)
  {
  }

  ghost predicate RetriedInStep(q: QueueItem, l: LedgerSend, owners: seq<Owner>, attached: seq<Owner>,
                                lag: set<BridgeId>, op: RetryOp) {
    InStep(QueueRetry(q, op), LedgerRetry(l, op), NextOwners(owners, op), NextOwners(attached, op), lag - op.dead)
  }

  /** Only a sent item can hold parts that are not separate: all others are exactly owned. */
  lemma UnsentIsSeparate(q: QueueItem, l: LedgerSend, owners: seq<Owner>, attached: seq<Owner>, lag: set<BridgeId>,
                         op: RetryOp)
    requires LedgerSide(q, l, owners, attached, lag) && q.status != Sent
    ensures SeparateRecord(q, l, owners, attached, op)
  {
    OwnedIsSeparate(PartsOf(l.details), q.bridgeIds, owners, op);
    OwnedIsSeparate(l.attachments, q.bridgeIds, attached, op);
  }

  /** Nothing lags and nothing is hidden in a sent item. */
  lemma SentHidesNothing(q: QueueItem, owners: seq<Owner>, lag: set<BridgeId>, op: RetryOp)
    requires QueueSide(q, owners) && Lagging(q, lag) && q.status == Sent
    ensures lag == {} && NothingHidden(q, op)
  {
    SentMeansAllRecorded(q, owners);
    assert forall b | b in lag :: RecordedStatus(q.acks, b) == Sent;
  }

  lemma RetriedSentWasSeparate(q: QueueItem, l: LedgerSend, owners: seq<Owner>, attached: seq<Owner>, op: RetryOp)
    requires InStep(q, l, owners, attached, {}) && FreshRetry(q, l, op) && q.status == Sent
    requires RetriedInStep(q, l, owners, attached, {}, op)
    ensures SeparateRecord(q, l, owners, attached, op)
  {
    RetryFound(q, owners, op);
    RetryQueueFields(q, op);
    RetryQueueSide(q, l, owners, op);
    RetryLedgerFields(q, l, owners, attached, {}, op);
    SentMeansAllRecorded(q, owners);
    FollowingWereSeparate(PartsOf(l.details), q.bridgeIds, owners, q.acks, op);
    FollowingWereSeparate(l.attachments, q.bridgeIds, attached, q.acks, op);
  }

  /** A retry keeps ledger and queue in step if and only if it finds every part under its owner only and
      the status that the queue computes from the ids alone hides no failed local part.  The first always
      holds of an item that is not sent, the second of one that is. */
  lemma RetryInStepExactly(q: QueueItem, l: LedgerSend, owners: seq<Owner>, attached: seq<Owner>, lag: set<BridgeId>,
                           op: RetryOp)
    requires InStep(q, l, owners, attached, lag) && FreshRetry(q, l, op)
    ensures RetriedInStep(q, l, owners, attached, lag, op)
            <==> SeparateRecord(q, l, owners, attached, op) && NothingHidden(q, op)
    ensures q.status != Sent ==> SeparateRecord(q, l, owners, attached, op)
    ensures q.status == Sent ==> NothingHidden(q, op)
    ensures lag - op.dead == {} && SeparateRecord(q, l, owners, attached, op) ==>
              (LedgerRetry(l, op).top.status == QueueRetry(q, op).status <==> NothingHidden(q, op))
  {
    if q.status != Sent {
      UnsentIsSeparate(q, l, owners, attached, lag, op);
    } else {
      SentHidesNothing(q, owners, lag, op);
      if RetriedInStep(q, l, owners, attached, lag, op) { RetriedSentWasSeparate(q, l, owners, attached, op); }
    }
    if SeparateRecord(q, l, owners, attached, op) { SeparateRetryInStep(q, l, owners, attached, lag, op); }
  }

  // ---------------------------------------------------------------- runs of acks and retries

  /** Owners, attachment owners and lagging ids along a run. */
  datatype Tracking = Tracking(owners: seq<Owner>, attached: seq<Owner>, lag: set<BridgeId>)

  /** An ack for an expected id, a late ack for a fenced one, or a retry of an expected id. */
  ghost predicate ProperEvent(s: SendState, e: Event) {
    match e
    case OnAck(a) => Clean(a, s.queue.bridgeIds) || Late(s, a.id)
    case OnRetry(op) => FreshRetry(s.queue, s.ledger, op)
  }

  /** What a late ack or a retry needs beyond that. */
  ghost predicate GoodEvent(s: SendState, t: Tracking, e: Event) {
    match e
    case OnAck(a) => a.id in s.queue.bridgeIds || LateHarmless(s.queue, a)
    case OnRetry(op) => SeparateRecord(s.queue, s.ledger, t.owners, t.attached, op) && NothingHidden(s.queue, op)
  }

  ghost function TrackNext(s: SendState, t: Tracking, e: Event): Tracking {
    match e
    case OnAck(a) => if a.id in s.queue.bridgeIds then t.(lag := NextLag(s.queue, a, t.lag)) else t
    case OnRetry(op) => Tracking(NextOwners(t.owners, op), NextOwners(t.attached, op), t.lag - op.dead)
  }

  ghost function Track(s: SendState, t: Tracking, events: seq<Event>): Tracking {
    if events == [] then t
    else
      var init := events[..|events| - 1];
      TrackNext(RunEvents(s, init), Track(s, t, init), events[|events| - 1])
  }

  ghost predicate Tracked(s: SendState, t: Tracking) {
    InStep(s.queue, s.ledger, t.owners, t.attached, t.lag)
  }

  ghost predicate ProperAt(s: SendState, events: seq<Event>, k: nat)
    requires k < |events|
  {
    ProperEvent(RunEvents(s, events[..k]), events[k])
  }

  ghost predicate ProperRun(s: SendState, events: seq<Event>) {
    forall k | 0 <= k < |events| :: ProperAt(s, events, k)
  }

  /** In step after the first `k` events. */
  ghost predicate TrackedAt(s: SendState, t: Tracking, events: seq<Event>, k: nat)
    requires k <= |events|
  {
    Tracked(RunEvents(s, events[..k]), Track(s, t, events[..k]))
  }

  ghost predicate GoodAt(s: SendState, t: Tracking, events: seq<Event>, k: nat)
    requires k < |events|
  {
    GoodEvent(RunEvents(s, events[..k]), Track(s, t, events[..k]), events[k])
  }

  /** One event. */
  lemma TrackedNext(s: SendState, t: Tracking, e: Event)
    requires ProperEvent(s, e) && Tracked(s, t)
    ensures Tracked(After(s, e), TrackNext(s, t, e)) <==> GoodEvent(s, t, e)
  {
    match e
    case OnAck(a) =>
      if a.id in s.queue.bridgeIds { Step(s.queue, s.ledger, t.owners, t.attached, t.lag, a); }
      else { LateInStep(s, t.owners, t.attached, t.lag, a); }
    case OnRetry(op) => RetryInStepExactly(s.queue, s.ledger, t.owners, t.attached, t.lag, op);
  }

  lemma NextPrefix(s: SendState, t: Tracking, events: seq<Event>, k: nat)
    requires k < |events|
    ensures RunEvents(s, events[..k + 1]) == After(RunEvents(s, events[..k]), events[k])
    ensures Track(s, t, events[..k + 1]) == TrackNext(RunEvents(s, events[..k]), Track(s, t, events[..k]), events[k])
  {
    assert events[..k + 1][..k] == events[..k];
  }

  lemma TrackedStep(s: SendState, t: Tracking, events: seq<Event>, k: nat)
    requires k < |events| && ProperAt(s, events, k) && TrackedAt(s, t, events, k)
    ensures TrackedAt(s, t, events, k + 1) <==> GoodAt(s, t, events, k)
  {
    NextPrefix(s, t, events, k);
    TrackedNext(RunEvents(s, events[..k]), Track(s, t, events[..k]), events[k]);
  }

  lemma TrackedAtStart(s: SendState, t: Tracking, events: seq<Event>)
    requires Tracked(s, t)
    ensures TrackedAt(s, t, events, 0)
  {
    assert events[..0] == [];
  }

  lemma {:induction false} GoodSoFar(s: SendState, t: Tracking, events: seq<Event>, k: nat)
    requires Tracked(s, t) && ProperRun(s, events) && k <= |events|
    requires forall j | 0 <= j < k :: GoodAt(s, t, events, j)
    ensures TrackedAt(s, t, events, k)
  {
    if k == 0 {
      TrackedAtStart(s, t, events);
    } else {
      GoodSoFar(s, t, events, k - 1);
      assert ProperAt(s, events, k - 1) && GoodAt(s, t, events, k - 1);
      TrackedStep(s, t, events, k - 1);
    }
  }

  /** Over every run of acks, late acks and retries ledger and queue stay in step, up to refused acks, if and
      only if every retry of it finds the parts under their owners only and hides no failed local part, and
      every late ack is ignored or meets a sent multi-part reply that stays as it is. */
  lemma EventsInStep(s: SendState, owners: seq<Owner>, attached: seq<Owner>, events: seq<Event>)
    requires Fresh(s, owners, attached) && ProperRun(s, events)
    ensures var t := Tracking(owners, attached, {});
            (forall k | 0 <= k <= |events| :: TrackedAt(s, t, events, k))
            <==> (forall k | 0 <= k < |events| :: GoodAt(s, t, events, k))
  {
    var t := Tracking(owners, attached, {});
    FreshInStep(s, owners, attached);
    if forall k | 0 <= k < |events| :: GoodAt(s, t, events, k) {
      forall k | 0 <= k <= |events| ensures TrackedAt(s, t, events, k) { GoodSoFar(s, t, events, k); }
    }
    if forall k | 0 <= k <= |events| :: TrackedAt(s, t, events, k) {
      forall k | 0 <= k < |events| ensures GoodAt(s, t, events, k) {
        assert TrackedAt(s, t, events, k) && TrackedAt(s, t, events, k + 1);
        TrackedStep(s, t, events, k);
      }
    }
  }
}
