/** Fencing over runs in which acks come between the retries.  An ack brings nothing back by itself, but the
    summaries that it leaves behind quote every recorded reason: a superseded id stays fenced as long as no
    reason that survives its retry names it. */
module FencedRuns {
  import opened Wrappers
  import opened SendParts
  import opened QueueProjection
  import opened LedgerProjection
  import opened TaskProjection
  import opened SendSync
  import opened SummaryTexts
  import opened LockStep
  import opened LockStepRuns
  import opened DeliveryAgreement
  import opened DeliverySafety
  import opened RetryFencing
  import opened RetryOutcomes

  /** Nothing that goes into a summary of the item has the token. */
  ghost predicate QueueTexts(q: QueueItem, h: string) {
    !Mentions(q.note, h) && !Mentions(q.resultReason, h) && IdsFree(q.bridgeIds, h) && AcksFree(q.acks, h)
  }

  ghost predicate TaskTexts(t: SendTask, h: string) {
    && !Mentions(t.detail, h) && !Mentions(t.lastError, h) && !Mentions(t.sendReason, h)
    && IdsFree(t.bridgeIds, h) && AcksFree(t.acks, h)
  }

  /** The id is fenced, and its token is gone from everything that summaries are made of. */
  ghost predicate Cut(s: SendState, b: BridgeId, h: string) {
    Fenced(s, b) && QueueTexts(s.queue, h) && forall i | 0 <= i < |s.tasks| :: TaskTexts(s.tasks[i], h)
  }

  // ---------------------------------------------------------------- acks for other ids

  /** An ack that does not bring the token along. */
  predicate AckFree(a: Ack, h: string) {
    !Mentions(a.id, h) && !Mentions(a.reason, h)
  }

  lemma QueueTextsAck(q: QueueItem, a: Ack, h: string)
    requires Token(h) && QueueTexts(q, h) && AckFree(a, h)
    ensures QueueTexts(QueueAfter(q, a), h) && !Mentions(NextReason(q, a), h)
  {
    NextReasonFree(q, a, h);
    if ApplyAck(q, a).Updated? {
      ItemTexts(q, a, h);
      UpdatedItem(q, a);
    } else {
      NotUpdated(q, a);
    }
  }

  lemma UpdatedItem(q: QueueItem, a: Ack)
    requires ApplyAck(q, a).Updated?
    ensures QueueAfter(q, a) == ItemWithAck(q, a)
  {
  }

  lemma SeenFree(q: QueueItem, a: Ack, h: string)
    requires !Mentions(q.note, h) && AckFree(a, h)
    ensures AckFree(TaskAck(q, a), h)
  {
  }

  lemma ItemTexts(q: QueueItem, a: Ack, h: string)
    requires QueueTexts(q, h) && AckFree(a, h) && !Mentions(NextReason(q, a), h)
    ensures QueueTexts(ItemWithAck(q, a), h)
  {
    RecordsFree(q.bridgeIds, q.acks, a, h);
  }

  lemma ItemForm(q: QueueItem, a: Ack)
    ensures var r, ids := ItemWithAck(q, a), ExpectedIds(q, a);
            && r.note == r.resultReason == NextReason(q, a) && r.bridgeIds == ids && r.acks == AcksWith(q.acks, a)
            && r.lastAckId == a.id && (r.messageId == q.messageId || r.messageId in ids)
            && r.details == DetailsWithAck(q.details, ids, a)
  {
  }

  lemma ExpectedFenced(q: QueueItem, a: Ack, b: BridgeId)
    requires b !in q.bridgeIds && a.id != b
    ensures b !in ExpectedIds(q, a)
  {
  }

  lemma ItemFenced(q: QueueItem, a: Ack, b: BridgeId)
    requires !QueueMentions(q, b) && a.id != b && !Mentions(a.reason, b) && !Mentions(NextReason(q, a), b)
    ensures !QueueMentions(ItemWithAck(q, a), b)
  {
    ItemForm(q, a);
    ExpectedFenced(q, a, b);
    if q.details.Some? { DetailsFencedAck(q.details.value, ExpectedIds(q, a), a, b); }
  }

  lemma QueueFencedAck(q: QueueItem, a: Ack, b: BridgeId)
    requires !QueueMentions(q, b) && a.id != b && !Mentions(a.reason, b) && !Mentions(NextReason(q, a), b)
    ensures !QueueMentions(QueueAfter(q, a), b)
  {
    if ApplyAck(q, a).Updated? {
      UpdatedItem(q, a);
      ItemFenced(q, a, b);
    } else {
      NotUpdated(q, a);
    }
  }

  lemma DetailsFencedAck(d: Details, ids: seq<BridgeId>, a: Ack, b: BridgeId)
    requires !DetailsReference(d, b) && b !in ids && !Mentions(a.reason, b)
    ensures !DetailsReference(d.(ids := ids).Ack(a.id, Mapped(a.status), a.reason), b)
  {
    var d' := d.(ids := ids).Ack(a.id, Mapped(a.status), a.reason);
    forall i | 0 <= i < |d'.files| ensures PartKey(d'.files[i]) != b && !Mentions(d'.files[i].reason, b) {
      assert PartKey(d.files[i]) != b && !Mentions(d.files[i].reason, b);
    }
  }

  lemma PartsFencedAck(ps: seq<Part>, id: BridgeId, status: Status, reason: string, b: BridgeId)
    requires !ReferencedIn(ps, b) && !Mentions(reason, b)
    ensures !ReferencedIn(AckParts(ps, id, status, reason), b)
  {
    forall i | 0 <= i < |ps| ensures !References(AckParts(ps, id, status, reason)[i], b) {
      assert !References(ps[i], b);
    }
  }

  lemma RecordFencedAck(l: LedgerSend, id: BridgeId, status: Status, reason: string, b: BridgeId)
    requires !LedgerMatches(l, b) && !Mentions(reason, b)
    ensures !LedgerMatches(LedgerAck(l, id, status, reason), b)
  {
    PartsFencedAck(PartsOf(l.details), id, status, reason, b);
    PartsFencedAck(l.attachments, id, status, reason, b);
  }

  lemma TopFencedAck(l: LedgerSend, status: Status, note: string, id: BridgeId, b: BridgeId)
    requires !LedgerMatches(l, b) && !Mentions(note, b) && id != b
    ensures !LedgerMatches(TopSync(l, status, note, id), b)
  {
  }

  lemma LedgerFencedAck(q: QueueItem, l: LedgerSend, a: Ack, b: BridgeId)
    requires !LedgerMatches(l, b) && a.id != b
    requires !Mentions(a.reason, b) && !Mentions(q.note, b) && !Mentions(NextReason(q, a), b)
    ensures !LedgerMatches(LedgerAfter(q, l, a), b)
  {
    match ApplyAck(q, a)
    case NotFound => RecordFencedAck(l, a.id, Raw(a.status), a.reason, b);
    case Refused => RecordFencedAck(l, a.id, Raw(a.status), a.reason, b);
    case Preserved(reason) =>
      TopFencedAck(l, q.status, reason, a.id, b);
      RecordFencedAck(TopSync(l, q.status, reason, a.id), a.id, Sent, reason, b);
    case Updated(item, reason) =>
      TopFencedAck(l, item.status, reason, a.id, b);
      RecordFencedAck(TopSync(l, item.status, reason, a.id), a.id, Raw(a.status), a.reason, b);
  }

  lemma TaskTextForms(t: SendTask, a: Ack)
    ensures var t' := TaskWithAck(t, a);
            && t'.detail in [t.detail, TaskSummary(t, a)] && t'.lastError in ["", t.lastError, TaskSummary(t, a)]
            && t'.sendReason == t.sendReason && t'.bridgeIds == TaskExpectedIds(t, a) && t'.acks == AcksWith(t.acks, a)
  {
  }

  lemma TaskTextsAck(t: SendTask, a: Ack, h: string)
    requires Token(h) && TaskTexts(t, h) && AckFree(a, h)
    ensures TaskTexts(TaskAfter(t, a), h)
  {
    TaskSummaryFree(t, a, h);
    NoTokenInShort("", h);
    TaskTextForms(t, a);
    RecordsFree(t.bridgeIds, t.acks, a, h);
  }

  lemma RecordsFree(ids: seq<BridgeId>, acks: map<BridgeId, AckRecord>, a: Ack, h: string)
    requires IdsFree(ids, h) && AcksFree(acks, h) && AckFree(a, h)
    ensures IdsFree(Dedupe(ids + [a.id]), h) && AcksFree(AcksWith(acks, a), h)
  {
    assert forall b | b in Dedupe(ids + [a.id]) :: b in ids || b == a.id;
  }

  /** What is free of the token does not name the id. */
  lemma FreeIsSilent(text: string, b: string, h: string)
    requires Mentions(b, h) && !Mentions(text, h)
    ensures !Mentions(text, b)
  {
    if Mentions(text, b) { MentionsInner(text, b, h); }
  }

  lemma TaskFencedAck(t: SendTask, a: Ack, b: BridgeId, h: string)
    requires !TaskReferences(t, b) && a.id != b && Mentions(b, h) && TaskTexts(TaskAfter(t, a), h)
    ensures !TaskReferences(TaskAfter(t, a), b)
  {
    var t' := TaskAfter(t, a);
    FreeIsSilent(t'.detail, b, h);
    FreeIsSilent(t'.lastError, b, h);
    FreeIsSilent(t'.sendReason, b, h);
    JoinMentions(t'.detail, ' ', t'.lastError, b);
    JoinMentions(t'.detail + " " + t'.lastError, ' ', t'.sendReason, b);
    assert b !in TaskExpectedIds(t, a);
  }

  /** An ack for another id leaves the id cut off. */
  lemma CutAck(s: SendState, a: Ack, b: BridgeId, h: string)
    requires Token(h) && Mentions(b, h) && Cut(s, b, h) && AckFree(a, h)
    ensures Cut(SyncAck(s, a), b, h)
  {
    var seen := TaskAck(s.queue, a);
    QueueTextsAck(s.queue, a, h);
    SeenFree(s.queue, a, h);
    FreeIsSilent(a.reason, b, h);
    FreeIsSilent(s.queue.note, b, h);
    FreeIsSilent(NextReason(s.queue, a), b, h);
    QueueFencedAck(s.queue, a, b);
    LedgerFencedAck(s.queue, s.ledger, a, b);
    forall i | 0 <= i < |s.tasks|
      ensures TaskTexts(TaskAfter(s.tasks[i], seen), h) && !TaskReferences(TaskAfter(s.tasks[i], seen), b)
    {
      TaskTextsAck(s.tasks[i], seen, h);
      TaskFencedAck(s.tasks[i], seen, b, h);
    }
  }

  // ---------------------------------------------------------------- retries

  ghost predicate IdsKept(ids: seq<BridgeId>, op: RetryOp, h: string) {
    forall c | c in ids && c !in op.dead :: !Mentions(c, h)
  }

  ghost predicate AcksKept(acks: map<BridgeId, AckRecord>, op: RetryOp, h: string) {
    forall c | c in acks && c !in op.dead && c != op.next :: !Mentions(c, h) && !Mentions(acks[c].reason, h)
  }

  /** What survives the retry has no token: no kept id, no kept reason, and no text of a record that the
      retry does not find. */
  ghost predicate KeptFree(s: SendState, op: RetryOp, h: string) {
    && (if QueueReferencesAny(s.queue, op.dead) && s.queue.status != Rejected
        then IdsKept(s.queue.bridgeIds, op, h) && AcksKept(s.queue.acks, op, h) else QueueTexts(s.queue, h))
    && forall i | 0 <= i < |s.tasks| :: TaskKept(s.tasks[i], op, h)
  }

  ghost predicate TaskKept(t: SendTask, op: RetryOp, h: string) {
    if TaskReferencesAny(t, op.dead) then IdsKept(t.bridgeIds, op, h) && AcksKept(t.acks, op, h) else TaskTexts(t, h)
  }

  /** The retry does not bring the token back. */
  predicate RetryFree(op: RetryOp, h: string) {
    !Mentions(op.next, h) && !Mentions(op.reason, h)
  }

  lemma IdsFreeAfterRetry(ids: seq<BridgeId>, op: RetryOp, h: string)
    requires IdsKept(ids, op, h) && !Mentions(op.next, h)
    ensures IdsFree(ReplaceIds(ids, op.dead, op.next), h) && IdsFree(RetryIds(ids, op.dead, op.next), h)
  {
    forall c | c in ReplaceIds(ids, op.dead, op.next) && c != op.next ensures !Mentions(c, h) {
      ReplacedMembers(ids, op.dead, op.next, c);
    }
  }

  lemma QueueTextsRetry(s: SendState, op: RetryOp, h: string)
    requires KeptFree(s, op, h) && RetryFree(op, h)
    ensures QueueTexts(QueueRetry(s.queue, op), h)
  {
    if QueueReferencesAny(s.queue, op.dead) && s.queue.status != Rejected {
      IdsFreeAfterRetry(s.queue.bridgeIds, op, h);
    }
  }

  lemma TaskTextsRetry(t: SendTask, op: RetryOp, h: string)
    requires Token(h) && TaskKept(t, op, h) && RetryFree(op, h)
    ensures TaskTexts(TaskRetry(t, op), h)
  {
    NoTokenInShort("", h);
    if TaskReferencesAny(t, op.dead) { IdsFreeAfterRetry(t.bridgeIds, op, h); }
  }

  lemma RetryExcludes(op: RetryOp, b: BridgeId, h: string)
    requires RetryFree(op, h) && Mentions(b, h)
    ensures Excluded(b, op)
  {
    FreeIsSilent(op.reason, b, h);
  }

  /** A retry that supersedes the id, or comes later, cuts it off if what survives it has no token. */
  lemma CutRetry(s: SendState, op: RetryOp, b: BridgeId, h: string)
    requires Token(h) && Mentions(b, h) && RetryFree(op, h) && KeptFree(s, op, h)
    requires s.queue.status != Rejected && (b in op.dead || Fenced(s, b))
    ensures Cut(SyncRetry(s, op), b, h)
  {
    RetryExcludes(op, b, h);
    FencedStep(s, op, b);
    QueueTextsRetry(s, op, h);
    forall i | 0 <= i < |s.tasks| ensures TaskTexts(TaskRetry(s.tasks[i], op), h) { TaskTextsRetry(s.tasks[i], op, h); }
  }

  lemma CutIsKept(s: SendState, op: RetryOp, b: BridgeId, h: string)
    requires Cut(s, b, h)
    ensures KeptFree(s, op, h)
  {
  }

  // ---------------------------------------------------------------- runs

  /** The event does not bring the id back: an ack or a retry without its token, or a late ack for the id
      itself while another one is the retry parent. */
  predicate EventFree(s: SendState, e: Event, b: BridgeId, h: string) {
    match e
    case OnAck(a) => AckFree(a, h) || (a.id == b && s.queue.retryOf != b)
    case OnRetry(op) => RetryFree(op, h)
  }

  predicate FreeAt(s: SendState, events: seq<Event>, k: nat, b: BridgeId, h: string)
    requires k < |events|
  {
    EventFree(RunEvents(s, events[..k]), events[k], b, h)
  }

  ghost predicate Deliverable(q: QueueItem) {
    QueueSound(q) && Delivery(q.status)
  }

  lemma DeliverableAck(q: QueueItem, a: Ack)
    requires Deliverable(q)
    ensures Deliverable(QueueAfter(q, a))
  {
    QueueSoundStep(q, a);
    NextIsDelivery(q, a);
    if ApplyAck(q, a).Updated? { UpdatedFields(q, a); } else { NotUpdated(q, a); }
  }

  lemma DeliverableStep(s: SendState, e: Event)
    requires Deliverable(s.queue)
    ensures Deliverable(After(s, e).queue)
  {
    match e
    case OnAck(a) => DeliverableAck(s.queue, a);
    case OnRetry(op) => QueueSoundRetry(s.queue, op);
  }

  lemma {:induction false} AlwaysDeliverable(s: SendState, events: seq<Event>)
    requires Deliverable(s.queue)
    ensures Deliverable(RunEvents(s, events).queue)
  {
    if events != [] {
      AlwaysDeliverable(s, events[..|events| - 1]);
      DeliverableStep(RunEvents(s, events[..|events| - 1]), events[|events| - 1]);
    }
  }

  lemma CutEvent(s: SendState, e: Event, b: BridgeId, h: string)
    requires Token(h) && Mentions(b, h) && Cut(s, b, h) && s.queue.status != Rejected && EventFree(s, e, b, h)
    ensures Cut(After(s, e), b, h)
  {
    match e
    case OnAck(a) => if AckFree(a, h) { CutAck(s, a, b, h); } else { LateAck(s, a); }
    case OnRetry(op) =>
      CutIsKept(s, op, b, h);
      CutRetry(s, op, b, h);
  }

  /** The event supersedes the id, and nothing that survives has its token. */
  ghost predicate CutsAt(s: SendState, events: seq<Event>, i: nat, b: BridgeId, h: string)
    requires i < |events|
  {
    events[i].OnRetry? && b in events[i].op.dead && KeptFree(RunEvents(s, events[..i]), events[i].op, h)
  }

  /** No event from `i` on brings the id back. */
  ghost predicate FreeSince(s: SendState, events: seq<Event>, i: nat, b: BridgeId, h: string) {
    forall k | i <= k < |events| :: FreeAt(s, events, k, b, h)
  }

  lemma SincePrefix(s: SendState, events: seq<Event>, i: nat, b: BridgeId, h: string)
    requires i < |events| - 1 && CutsAt(s, events, i, b, h) && FreeSince(s, events, i, b, h)
    ensures var init := events[..|events| - 1]; CutsAt(s, init, i, b, h) && FreeSince(s, init, i, b, h)
  {
    var init := events[..|events| - 1];
    assert init[..i] == events[..i];
    forall k | i <= k < |init| ensures FreeAt(s, init, k, b, h) {
      assert init[..k] == events[..k] && FreeAt(s, events, k, b, h);
    }
  }

  lemma LastFree(s: SendState, events: seq<Event>, i: nat, b: BridgeId, h: string)
    requires i < |events| && FreeSince(s, events, i, b, h)
    ensures EventFree(RunEvents(s, events[..|events| - 1]), events[|events| - 1], b, h)
  {
    assert FreeAt(s, events, |events| - 1, b, h);
  }

  lemma CutAtLast(s: SendState, events: seq<Event>, i: nat, b: BridgeId, h: string)
    requires Deliverable(s.queue) && Token(h) && Mentions(b, h)
    requires i == |events| - 1 && CutsAt(s, events, i, b, h) && FreeSince(s, events, i, b, h)
    ensures Cut(RunEvents(s, events), b, h)
  {
    AlwaysDeliverable(s, events[..i]);
    LastFree(s, events, i, b, h);
    CutRetry(RunEvents(s, events[..i]), events[i].op, b, h);
  }

  lemma StillCut(s: SendState, events: seq<Event>, i: nat, b: BridgeId, h: string)
    requires Deliverable(s.queue) && Token(h) && Mentions(b, h)
    requires i < |events| && FreeSince(s, events, i, b, h) && Cut(RunEvents(s, events[..|events| - 1]), b, h)
    ensures Cut(RunEvents(s, events), b, h)
  {
    AlwaysDeliverable(s, events[..|events| - 1]);
    LastFree(s, events, i, b, h);
    CutEvent(RunEvents(s, events[..|events| - 1]), events[|events| - 1], b, h);
  }

  lemma {:induction false} CutSince(s: SendState, events: seq<Event>, i: nat, b: BridgeId, h: string)
    requires Deliverable(s.queue) && Token(h) && Mentions(b, h)
    requires i < |events| && CutsAt(s, events, i, b, h) && FreeSince(s, events, i, b, h)
    ensures Cut(RunEvents(s, events), b, h)
    decreases |events|
  {
    if i == |events| - 1 {
      CutAtLast(s, events, i, b, h);
    } else {
      SincePrefix(s, events, i, b, h);
      CutSince(s, events[..|events| - 1], i, b, h);
      StillCut(s, events, i, b, h);
    }
  }

  /** Over any run of acks and retries: an id that a retry superseded, with no trace of its token in what
      survived, stays fenced for good, and the item can only be found under it as the retry parent. */
  lemma FencedForGood(s: SendState, events: seq<Event>, i: nat, b: BridgeId, h: string)
    requires Deliverable(s.queue) && Token(h) && Mentions(b, h)
    requires i < |events| && CutsAt(s, events, i, b, h) && FreeSince(s, events, i, b, h)
    ensures Fenced(RunEvents(s, events), b)
    ensures QueueReferences(RunEvents(s, events).queue, b) <==> RunEvents(s, events).queue.retryOf == b
  {
    CutSince(s, events, i, b, h);
    OnlyParentReferenced(RunEvents(s, events).queue, b);
  }

  // ---------------------------------------------------------------- what survives a retry decides

  lemma IdsAreTexts(b: BridgeId, text: string)
    requires Mentions(text, b)
    ensures text != ""
  {
  }

  /** A kept reason that names the id is told again by the summary that the next stored ack leaves. */
  lemma ReasonReturns(q: QueueItem, a: Ack, c: BridgeId, b: BridgeId)
    requires c in q.bridgeIds && c in q.acks && Mentions(q.acks[c].reason, b) && a.id != c && ApplyAck(q, a).Updated?
    ensures QueueMentions(QueueAfter(q, a), b)
  {
    var ids := ExpectedIds(q, a);
    assert c in q.bridgeIds + [a.id] && a.id in q.bridgeIds + [a.id];
    assert c in ids && a.id in ids;
    TwoMembers(ids, c, a.id);
    IdsAreTexts(b, q.acks[c].reason);
    SummaryTellsAll(ids, AcksWith(q.acks, a), c, b);
    var rest := ReasonWithSummary(q, a);
    ToldFirst(Summary(ids, AcksWith(q.acks, a)), rest, b);
    UpdatedItem(q, a);
    ItemForm(q, a);
  }

  lemma TwoMembers(ids: seq<BridgeId>, c: BridgeId, d: BridgeId)
    requires c in ids && d in ids && c != d
    ensures |ids| > 1
  {
  }

  lemma TaskReasonReturns(t: SendTask, a: Ack, c: BridgeId, b: BridgeId)
    requires c in t.bridgeIds && c in t.acks && Mentions(t.acks[c].reason, b) && a.id != c
    requires a.id in t.bridgeIds && t.status == TaskQueued
    ensures TaskReferences(TaskAfter(t, a), b)
  {
    var t', ids := TaskAfter(t, a), TaskExpectedIds(t, a);
    assert c in t.bridgeIds + [a.id] && TaskReferences(t, a.id);
    assert c in ids;
    IdsAreTexts(b, t.acks[c].reason);
    SummaryTellsAll(ids, AcksWith(t.acks, a), c, b);
    QueuedDetail(t, a, b);
    ToldFirst(t'.detail, " " + t'.lastError + " " + t'.sendReason, b);
    JoinedTexts(t'.detail, t'.lastError, t'.sendReason);
  }

  lemma JoinedTexts(x: string, y: string, z: string)
    ensures x + (" " + y + " " + z) == x + " " + y + " " + z
  {
  }

  lemma TaskSummaryForm(t: SendTask, a: Ack) returns (rest: string)
    ensures TaskSummary(t, a) == Summary(TaskExpectedIds(t, a), AcksWith(t.acks, a)) + rest
  {
    if TaskLocal(t) == [] {
      rest := "";
    } else {
      rest := ";local_parts:" + (if t.sendReason != "" then t.sendReason else JoinNames(TaskLocal(t)));
      LocalAppended(Summary(TaskExpectedIds(t, a), AcksWith(t.acks, a)),
                    if t.sendReason != "" then t.sendReason else JoinNames(TaskLocal(t)));
    }
  }

  lemma LocalAppended(summary: string, local: string)
    ensures summary + ";local_parts:" + local == summary + (";local_parts:" + local)
  {
  }

  lemma DetailIsSummary(t: SendTask, a: Ack)
    requires t.status == TaskQueued && TaskReferences(t, a.id)
    ensures TaskAfter(t, a).detail == TaskSummary(t, a)
  {
  }

  lemma QueuedDetail(t: SendTask, a: Ack, b: string)
    requires t.status == TaskQueued && TaskReferences(t, a.id)
    requires Mentions(Summary(TaskExpectedIds(t, a), AcksWith(t.acks, a)), b)
    ensures Mentions(TaskAfter(t, a).detail, b)
  {
    var rest := TaskSummaryForm(t, a);
    ToldFirst(Summary(TaskExpectedIds(t, a), AcksWith(t.acks, a)), rest, b);
    DetailIsSummary(t, a);
  }

  /** Kept ids are free of the token, kept acks are for expected ids, and a kept reason that has the token
      names the id. */
  ghost predicate Plainly(ids: seq<BridgeId>, acks: map<BridgeId, AckRecord>, op: RetryOp, b: BridgeId, h: string) {
    && IdsKept(ids, op, h) && (exists d | d in ids :: d in op.dead)
    && forall c | c in acks && c !in op.dead && c != op.next ::
         c in ids && (Mentions(acks[c].reason, h) ==> Mentions(acks[c].reason, b))
  }

  lemma LeakingReason(ids: seq<BridgeId>, acks: map<BridgeId, AckRecord>, op: RetryOp, b: BridgeId, h: string)
    returns (c: BridgeId)
    requires Plainly(ids, acks, op, b, h) && !AcksKept(acks, op, h)
    ensures c in ids && c in acks && c !in op.dead && c != op.next && Mentions(acks[c].reason, b)
  {
    c :| c in acks && c !in op.dead && c != op.next && (Mentions(c, h) || Mentions(acks[c].reason, h));
  }

  lemma NextAndKept(ids: seq<BridgeId>, op: RetryOp, c: BridgeId)
    requires c in ids && c !in op.dead && c != op.next && exists d | d in ids :: d in op.dead
    ensures c in ReplaceIds(ids, op.dead, op.next) && op.next in ReplaceIds(ids, op.dead, op.next)
  {
    ReplacedMembers(ids, op.dead, op.next, c);
    var d :| d in ids && d in op.dead;
    var i :| 0 <= i < |ids| && ids[i] == d;
    assert ReplaceAll(ids, op.dead, op.next)[i] == op.next;
  }

  lemma FailureStored(q: QueueItem, a: Ack)
    requires Deliverable(q) && q.status != Sent && a.id in q.bridgeIds && a.status == AckFailed
    ensures ApplyAck(q, a).Updated?
  {
    var ids, local := ExpectedIds(q, a), LocalStatuses(PartsOf(q.details), ExpectedIds(q, a));
    assert a.id in q.bridgeIds + [a.id];
    assert a.id in ids;
    var k :| 0 <= k < |ids| && ids[k] == a.id;
    assert RecordedStatuses(ids, AcksWith(q.acks, a))[k] == Failed;
    assert NextStatus(q, a) == Failed;
  }

  lemma QueueLeaks(q: QueueItem, op: RetryOp, b: BridgeId, h: string, a: Ack)
    requires Deliverable(q) && Plainly(q.bridgeIds, q.acks, op, b, h) && !AcksKept(q.acks, op, h)
    requires a.id == op.next && a.status == AckFailed
    ensures QueueMentions(QueueAfter(QueueRetry(q, op), a), b)
  {
    var c := LeakingReason(q.bridgeIds, q.acks, op, b, h);
    NextAndKept(q.bridgeIds, op, c);
    var d :| d in q.bridgeIds && d in op.dead;
    assert QueueReferences(q, d);
    QueueSoundRetry(q, op);
    var q' := QueueRetry(q, op);
    assert q' == ItemWithRetry(q, op);
    FailureStored(q', a);
    ReasonReturns(q', a, c, b);
  }

  lemma TaskLeaks(t: SendTask, op: RetryOp, b: BridgeId, h: string, a: Ack)
    requires Plainly(t.bridgeIds, t.acks, op, b, h) && !AcksKept(t.acks, op, h) && a.id == op.next
    ensures TaskReferences(TaskAfter(TaskRetry(t, op), a), b)
  {
    var c := LeakingReason(t.bridgeIds, t.acks, op, b, h);
    NextAndKept(t.bridgeIds, op, c);
    var d :| d in t.bridgeIds && d in op.dead;
    assert TaskReferences(t, d);
    TaskReasonReturns(TaskRetry(t, op), a, c, b);
  }

  /** The retry finds the item and every task by an expected id. */
  ghost predicate FoundPlainly(s: SendState, op: RetryOp, b: BridgeId, h: string) {
    && Plainly(s.queue.bridgeIds, s.queue.acks, op, b, h)
    && forall i | 0 <= i < |s.tasks| :: Plainly(s.tasks[i].bridgeIds, s.tasks[i].acks, op, b, h)
  }

  /** No reason that survives the retry names the id. */
  ghost predicate NoReasonLeaks(s: SendState, op: RetryOp, h: string) {
    AcksKept(s.queue.acks, op, h) && forall i | 0 <= i < |s.tasks| :: AcksKept(s.tasks[i].acks, op, h)
  }

  lemma PlainlyKept(s: SendState, op: RetryOp, b: BridgeId, h: string)
    requires FoundPlainly(s, op, b, h) && NoReasonLeaks(s, op, h) && s.queue.status != Rejected
    ensures KeptFree(s, op, h)
  {
    var d :| d in s.queue.bridgeIds && d in op.dead;
    assert QueueReferences(s.queue, d);
    forall i | 0 <= i < |s.tasks| ensures TaskKept(s.tasks[i], op, h) {
      var d :| d in s.tasks[i].bridgeIds && d in op.dead;
      assert TaskReferences(s.tasks[i], d);
    }
  }

  /** A superseded id is fenced against every next ack for the new id if and only if no reason that survives
      the retry names it. */
  lemma FencedExactly(s: SendState, op: RetryOp, b: BridgeId, h: string)
    requires Deliverable(s.queue) && Token(h) && Mentions(b, h) && b in op.dead && RetryFree(op, h)
    requires FoundPlainly(s, op, b, h)
    ensures NoReasonLeaks(s, op, h)
            <==> forall a: Ack | a.id == op.next && AckFree(a, h) :: Fenced(SyncAck(SyncRetry(s, op), a), b)
  {
    if NoReasonLeaks(s, op, h) {
      PlainlyKept(s, op, b, h);
      CutRetry(s, op, b, h);
      forall a: Ack | a.id == op.next && AckFree(a, h) ensures Fenced(SyncAck(SyncRetry(s, op), a), b) {
        CutAck(SyncRetry(s, op), a, b, h);
      }
    } else {
      var a := Ack(op.next, AckFailed, "");
      NoTokenInShort("", h);
      ReasonLeaks(s, op, b, h, a);
    }
  }

  lemma ReasonLeaks(s: SendState, op: RetryOp, b: BridgeId, h: string, a: Ack)
    requires Deliverable(s.queue) && FoundPlainly(s, op, b, h) && !NoReasonLeaks(s, op, h)
    requires a.id == op.next && a.status == AckFailed
    ensures !Fenced(SyncAck(SyncRetry(s, op), a), b)
  {
    var r := SyncRetry(s, op);
    if !AcksKept(s.queue.acks, op, h) {
      QueueLeaks(s.queue, op, b, h, a);
    } else {
      var i :| 0 <= i < |s.tasks| && !AcksKept(s.tasks[i].acks, op, h);
      var seen := TaskAck(r.queue, a);
      TaskLeaks(s.tasks[i], op, b, h, seen);
      assert SyncAck(r, a).tasks[i] == TaskAfter(TaskRetry(s.tasks[i], op), seen);
    }
  }

  // ---------------------------------------------------------------- a leak, from the start

  /** A task that expects both parts, and what it records of the second. */
  ghost predicate Expects(t: SendTask, b: BridgeId, c: BridgeId) {
    b in t.bridgeIds && c in t.bridgeIds
  }

  lemma TaskRecords(t: SendTask, a: Ack, b: BridgeId, c: BridgeId)
    requires Expects(t, b, c) && a.id in t.bridgeIds
    ensures var t' := TaskAfter(t, a);
            Expects(t', b, c) && a.id in t'.acks && t'.acks[a.id].reason == a.reason
  {
    assert TaskReferences(t, a.id);
    assert forall x | x in t.bridgeIds :: x in t.bridgeIds + [a.id];
  }

  lemma RetryQueues(t: SendTask, op: RetryOp, b: BridgeId, c: BridgeId)
    requires Expects(t, b, c) && b in t.acks && c in op.dead && b !in op.dead && b != op.next
    ensures var t' := TaskRetry(t, op);
            && t'.status == TaskQueued && b in t'.bridgeIds && op.next in t'.bridgeIds
            && b in t'.acks && t'.acks[b] == t.acks[b]
  {
    assert TaskReferences(t, c);
    NextAndKept(t.bridgeIds, op, b);
  }

  lemma NoteNamesSecond(s: SendState, b: BridgeId, c: BridgeId, a1: Ack, a2: Ack, a3: Ack)
    requires TwoParts(s, b, c) && a1.id == a3.id == b && a2.id == c
    requires a1.status == a2.status == AckSent && a3.status == AckFailed
    ensures Mentions(TaskAck(QueueAfter(QueueAfter(s.queue, a1), a2), a3).reason, c)
  {
    var owners := [Some(b), Some(c)];
    FreshInStep(s, owners, []);
    FreshQueued(s.queue, b, c);
    FirstSent(s.queue, owners, b, c, a1);
    NoteFromFirst(QueueAfter(s.queue, a1), b, c, owners, a2, a3);
  }

  lemma NoteFromFirst(q: QueueItem, b: BridgeId, c: BridgeId, owners: seq<Owner>, a2: Ack, a3: Ack)
    requires QueueSide(q, owners) && owners == [Some(b), Some(c)] && q.bridgeIds == [b, c] && b != c
    requires RecordedStatus(q.acks, b) == Sent && a2.id == c && a3.id == b
    requires a2.status == AckSent && a3.status == AckFailed
    ensures Mentions(TaskAck(QueueAfter(q, a2), a3).reason, c)
  {
    SecondSent(q, b, c, owners, a2);
    NoteNamesAll(q, a2, c);
    FailureIsPreserved(QueueAfter(q, a2), b, c, a3);
    PreservedNote(QueueAfter(q, a2), a3);
  }

  lemma PreservedNote(q: QueueItem, a: Ack)
    requires ApplyAck(q, a).Preserved? && q.note != ""
    ensures TaskAck(q, a).reason == q.note
  {
  }

  /** For every reply of two bridged parts with a task: both are sent, and a late failure of the first is
      preserved, which makes the task record the item's note for it.  The second is retried, an ack for its new
      id arrives, and the task is found under the superseded id again. */
  lemma SupersededReturns(s: SendState, i: nat, b: BridgeId, c: BridgeId, a1: Ack, a2: Ack, a3: Ack, op: RetryOp,
                          a4: Ack)
    requires TwoParts(s, b, c) && i < |s.tasks| && Expects(s.tasks[i], b, c)
    requires a1.id == a3.id == b && a2.id == c && a1.status == a2.status == AckSent && a3.status == AckFailed
    requires c in op.dead && b !in op.dead && b != op.next && a4.id == op.next
    ensures var t := SyncAck(SyncRetry(SyncAck(SyncAck(SyncAck(s, a1), a2), a3), op), a4);
            TaskReferences(t.tasks[i], c)
  {
    var s1 := SyncAck(s, a1);
    var s2 := SyncAck(s1, a2);
    var seen := TaskAck(s2.queue, a3);
    NoteNamesSecond(s, b, c, a1, a2, a3);
    TaskRecords(s.tasks[i], TaskAck(s.queue, a1), b, c);
    TaskRecords(s1.tasks[i], TaskAck(s1.queue, a2), b, c);
    TaskRecords(s2.tasks[i], seen, b, c);
    LeakedByRetry(SyncAck(s2, a3), i, b, c, op, a4);
  }

  lemma LeakedByRetry(s: SendState, i: nat, b: BridgeId, c: BridgeId, op: RetryOp, a: Ack)
    requires i < |s.tasks| && Expects(s.tasks[i], b, c)
    requires b in s.tasks[i].acks && Mentions(s.tasks[i].acks[b].reason, c)
    requires c in op.dead && b !in op.dead && b != op.next && a.id == op.next
    ensures TaskReferences(SyncAck(SyncRetry(s, op), a).tasks[i], c)
  {
    var r := SyncRetry(s, op);
    RetryQueues(s.tasks[i], op, b, c);
    TaskReasonReturns(r.tasks[i], TaskAck(r.queue, a), b, c);
  }
}
