/** What a bridge retry leaves behind, over whole chains of retries.

  The ledger record and the tasks no longer reference any superseded id, so a late ack for one
  changes neither.  The queue item is different: it keeps the retry parent in `retryOf` and is
  still found under that id, so it is fenced against every superseded id except that one.
 */
module RetryFencing {
  import opened Wrappers
  import opened SendParts
  import opened QueueProjection
  import opened LedgerProjection
  import opened TaskProjection
  import opened SendSync
  import opened SummaryTexts

  /** The id is not brought back by the retry: it is neither the new id nor named in the reason. */
  predicate Excluded(b: BridgeId, op: RetryOp) {
    b != op.next && !Mentions(op.reason, b)
  }

  // ---------------------------------------------------------------- parts and id lists

  lemma PartFenced(p: Part, op: RetryOp, b: BridgeId)
    requires Excluded(b, op) && (b in op.dead || !References(p, b))
    ensures !References(RetryPart(p, op.dead, op.next, op.reason), b)
  {
  }

  lemma PartsFenced(ps: seq<Part>, op: RetryOp, b: BridgeId)
    requires Excluded(b, op) && (b in op.dead || !ReferencedIn(ps, b))
    ensures !ReferencedIn(RetryParts(ps, op.dead, op.next, op.reason), b)
  {
    forall i | 0 <= i < |ps| ensures !References(RetryParts(ps, op.dead, op.next, op.reason)[i], b) {
      PartFenced(ps[i], op, b);
    }
  }

  lemma ReplacedMembers(ids: seq<BridgeId>, dead: set<BridgeId>, next: BridgeId, b: BridgeId)
    requires b != next
    ensures b in ReplaceIds(ids, dead, next) <==> b in ids && b !in dead
  {
    var r := ReplaceAll(ids, dead, next);
    if b in ids && b !in dead {
      var i :| 0 <= i < |ids| && ids[i] == b;
      assert r[i] == b;
    }
    if b in r { var i :| 0 <= i < |r| && r[i] == b; }
  }

  function Others(ids: seq<BridgeId>, dead: set<BridgeId>, next: BridgeId): (r: seq<BridgeId>)
    ensures forall b :: b in r <==> b in ids && b !in dead && b != next
  {
    if ids == [] then []
    else
      var init, last := ids[..|ids| - 1], ids[|ids| - 1];
      assert ids == init + [last];
      if last in dead || last == next then Others(init, dead, next) else Others(init, dead, next) + [last]
  }

  lemma OthersSnoc(ids: seq<BridgeId>, last: BridgeId, dead: set<BridgeId>, next: BridgeId)
    ensures Others(ids + [last], dead, next)
            == Others(ids, dead, next) + if last in dead || last == next then [] else [last]
  {
    assert (ids + [last])[..|ids|] == ids;
  }

  lemma DedupeSnoc(ids: seq<BridgeId>, last: BridgeId)
    ensures Dedupe(ids + [last]) == if last in ids then Dedupe(ids) else Dedupe(ids) + [last]
  {
    assert (ids + [last])[..|ids|] == ids;
  }

  lemma {:induction false} OthersOfReplaced(ids: seq<BridgeId>, dead: set<BridgeId>, next: BridgeId)
    ensures Others(Dedupe(ReplaceAll(ids, dead, next)), dead, next) == Dedupe(Others(ids, dead, next))
  {
    if ids != [] {
      var init, last := ids[..|ids| - 1], ids[|ids| - 1];
      var r, x := ReplaceAll(init, dead, next), if last in dead then next else last;
      assert ids == init + [last] && ReplaceAll(ids, dead, next) == r + [x];
      OthersOfReplaced(init, dead, next);
      DedupeSnoc(r, x);
      OthersSnoc(Dedupe(r), x, dead, next);
      OthersSnoc(init, last, dead, next);
      DedupeSnoc(Others(init, dead, next), last);
      assert last !in dead && last != next ==> (last in Dedupe(r) <==> last in Others(Dedupe(r), dead, next));
    }
  }

  /** An id list after a retry has no repetition, holds the new id, no superseded one, and keeps
      all other ids in their order. */
  lemma RetryIdsExact(ids: seq<BridgeId>, op: RetryOp)
    ensures Distinct(RetryIds(ids, op.dead, op.next)) && op.next in RetryIds(ids, op.dead, op.next)
    ensures forall b | b in op.dead && b != op.next :: b !in RetryIds(ids, op.dead, op.next)
    ensures Distinct(ids) ==> Others(RetryIds(ids, op.dead, op.next), op.dead, op.next) == Others(ids, op.dead, op.next)
  {
    var r := ReplaceIds(ids, op.dead, op.next);
    ReplacedHasNone(ids, op);
    OthersOfReplaced(ids, op.dead, op.next);
    OthersSnoc(r, op.next, op.dead, op.next);
    if Distinct(ids) { OthersDistinct(ids, op.dead, op.next); }
    WithNewId(r, op.next);
  }

  lemma ReplacedHasNone(ids: seq<BridgeId>, op: RetryOp)
    ensures forall b | b in op.dead && b != op.next :: b !in ReplaceIds(ids, op.dead, op.next)
  {
    forall b | b in op.dead && b != op.next ensures b !in ReplaceIds(ids, op.dead, op.next) {
      ReplacedMembers(ids, op.dead, op.next, b);
    }
  }

  lemma WithNewId(r: seq<BridgeId>, next: BridgeId)
    requires Distinct(r)
    ensures Distinct(if next in r then r else r + [next])
  {
  }

  /** The same for a task's list, which gets the new id only in place of a superseded one or when
      it would be empty. */
  lemma TaskIdsExact(t: SendTask, op: RetryOp)
    ensures Distinct(TaskRetriedIds(t, op))
    ensures forall b | b in op.dead && b != op.next :: b !in TaskRetriedIds(t, op)
    ensures Distinct(t.bridgeIds) ==>
              Others(TaskRetriedIds(t, op), op.dead, op.next) == Others(t.bridgeIds, op.dead, op.next)
  {
    var r := ReplaceIds(t.bridgeIds, op.dead, op.next);
    assert r == Dedupe(ReplaceAll(t.bridgeIds, op.dead, op.next));
    OthersOfReplaced(t.bridgeIds, op.dead, op.next);
    forall b | b in op.dead && b != op.next ensures b !in r { ReplacedMembers(t.bridgeIds, op.dead, op.next, b); }
    if Distinct(t.bridgeIds) { OthersDistinct(t.bridgeIds, op.dead, op.next); }
    assert [op.next][..0] == [];
  }

  lemma {:induction false} OthersDistinct(ids: seq<BridgeId>, dead: set<BridgeId>, next: BridgeId)
    requires Distinct(ids)
    ensures Distinct(Others(ids, dead, next))
  {
    if ids != [] {
      var init, last := ids[..|ids| - 1], ids[|ids| - 1];
      OthersDistinct(init, dead, next);
      assert forall i | 0 <= i < |init| :: init[i] == ids[i];
    }
  }

  // ---------------------------------------------------------------- the place of the new id

  /** Position `i` holds the first candidate, or the new id itself; `i` is the length if there is neither. */
  predicate FirstOut(ids: seq<BridgeId>, op: RetryOp, i: nat) {
    && i <= |ids| && (forall k | 0 <= k < i :: ids[k] !in op.dead && ids[k] != op.next)
    && (i < |ids| ==> ids[i] in op.dead || ids[i] == op.next)
  }

  lemma ReplacedSnoc(init: seq<BridgeId>, last: BridgeId, op: RetryOp)
    ensures var x := if last in op.dead then op.next else last;
            ReplaceIds(init + [last], op.dead, op.next)
            == ReplaceIds(init, op.dead, op.next) + if x in ReplaceAll(init, op.dead, op.next) then [] else [x]
  {
    var x := if last in op.dead then op.next else last;
    assert ReplaceAll(init + [last], op.dead, op.next) == ReplaceAll(init, op.dead, op.next) + [x];
    DedupeSnoc(ReplaceAll(init, op.dead, op.next), x);
  }

  lemma NothingReplaced(ids: seq<BridgeId>, op: RetryOp)
    requires Distinct(ids) && FirstOut(ids, op, |ids|)
    ensures ReplaceAll(ids, op.dead, op.next) == ids == ReplaceIds(ids, op.dead, op.next)
  {
    assert ReplaceAll(ids, op.dead, op.next) == ids;
  }

  /** The list with the new id in that place. */
  function InPlace(ids: seq<BridgeId>, op: RetryOp, i: nat): seq<BridgeId>
    requires i < |ids|
  {
    ids[..i] + [op.next] + Others(ids[i + 1..], op.dead, op.next)
  }

  lemma InPlaceSnoc(init: seq<BridgeId>, last: BridgeId, op: RetryOp, i: nat)
    requires i < |init|
    ensures InPlace(init + [last], op, i)
            == InPlace(init, op, i) + if last in op.dead || last == op.next then [] else [last]
  {
    var ids := init + [last];
    assert ids[i + 1..] == init[i + 1..] + [last] && ids[..i] == init[..i];
    OthersSnoc(init[i + 1..], last, op.dead, op.next);
  }

  lemma InPlaceLast(init: seq<BridgeId>, last: BridgeId, op: RetryOp)
    ensures InPlace(init + [last], op, |init|) == init + [op.next]
  {
    var ids := init + [last];
    assert ids[|init| + 1..] == [] && ids[..|init|] == init;
  }

  /** A list without repetition keeps its order, with the new id where the first candidate was. */
  lemma {:induction false} ReplacedInPlace(ids: seq<BridgeId>, op: RetryOp, i: nat)
    requires Distinct(ids) && FirstOut(ids, op, i)
    ensures ReplaceIds(ids, op.dead, op.next) == if i < |ids| then InPlace(ids, op, i) else ids
  {
    if i == |ids| {
      NothingReplaced(ids, op);
    } else {
      var init, last := ids[..|ids| - 1], ids[|ids| - 1];
      assert ids == init + [last];
      ReplacedSnoc(init, last, op);
      NotReplacedIn(init, op, last);
      if i < |init| {
        ReplacedInPlace(init, op, i);
        assert ReplaceAll(init, op.dead, op.next)[i] == op.next;
        InPlaceSnoc(init, last, op, i);
      } else {
        NothingReplaced(init, op);
        InPlaceLast(init, last, op);
      }
    }
  }

  lemma NotReplacedIn(init: seq<BridgeId>, op: RetryOp, last: BridgeId)
    requires Distinct(init + [last])
    ensures last != op.next ==> last !in ReplaceAll(init, op.dead, op.next)
  {
    var all := init + [last];
    forall k | 0 <= k < |init| ensures init[k] != last { assert all[k] != all[|init|]; }
  }

  /** A reply's list gets the new id at its end when no candidate was in it. */
  lemma RetryIdsInPlace(ids: seq<BridgeId>, op: RetryOp, i: nat)
    requires Distinct(ids) && FirstOut(ids, op, i)
    ensures RetryIds(ids, op.dead, op.next)
            == if i < |ids| then InPlace(ids, op, i) else ids + [op.next]
  {
    ReplacedInPlace(ids, op, i);
  }

  // ---------------------------------------------------------------- the ledger record

  lemma LedgerFenced(l: LedgerSend, op: RetryOp, b: BridgeId)
    requires Excluded(b, op) && (b in op.dead || !LedgerMatches(l, b))
    ensures !LedgerMatches(LedgerRetry(l, op), b)
  {
    if LedgerMatchesAny(l, op.dead) {
      PartsFenced(PartsOf(l.details), op, b);
      PartsFenced(l.attachments, op, b);
      if l.details.Some? { ReplacedMembers(l.details.value.ids, op.dead, op.next, b); }
    }
  }

  /** A retried record is neither sent nor accepted. */
  lemma RetriedLedgerNotDone(l: LedgerSend, op: RetryOp)
    requires LedgerMatchesAny(l, op.dead)
    ensures LedgerRetry(l, op).top.status !in {Sent, Accepted}
  {
    RetriedTopNotDone(l.details, op);
  }

  lemma RetriedTopNotDone(d: Option<Details>, op: RetryOp)
    ensures RetriedTopStatus(d, op) !in {Sent, Accepted}
  {
    if d.Some? && SomeReferencesAny(d.value.Parts(), op.dead) { SomeQueued(d.value.Parts(), op); }
  }

  lemma SomeQueued(ps: seq<Part>, op: RetryOp)
    requires SomeReferencesAny(ps, op.dead)
    ensures Queued in Statuses(RetryParts(ps, op.dead, op.next, op.reason))
  {
    var i :| 0 <= i < |ps| && ReferencesAny(ps[i], op.dead);
    assert Statuses(RetryParts(ps, op.dead, op.next, op.reason))[i] == Queued;
  }

  // ---------------------------------------------------------------- the tasks

  lemma TaskFenced(t: SendTask, op: RetryOp, b: BridgeId)
    requires Excluded(b, op) && (b in op.dead || !TaskReferences(t, b))
    ensures !TaskReferences(TaskRetry(t, op), b)
  {
    if TaskReferencesAny(t, op.dead) {
      ReplacedMembers(t.bridgeIds, op.dead, op.next, b);
      JoinMentions(op.reason, ' ', "", b);
      JoinMentions(op.reason + " " + "", ' ', op.reason, b);
    }
  }

  // ---------------------------------------------------------------- the queue item

  /** Every way the item can reference an id, other than through `retryOf`. */
  predicate QueueMentions(q: QueueItem, b: BridgeId) {
    || Mentions(q.note, b)
    || b in q.bridgeIds
    || b in q.acks
    || q.lastAckId == b
    || q.messageId == b
    || Mentions(q.resultReason, b)
    || (q.details.Some? && DetailsReference(q.details.value, b))
  }

  lemma DetailsFenced(d: Details, op: RetryOp, b: BridgeId)
    requires Excluded(b, op) && (b in op.dead || !DetailsReference(d, b))
    ensures !DetailsReference(d.Retry(op.dead, op.next, op.reason), b)
  {
    ReplacedMembers(d.ids, op.dead, op.next, b);
    var d' := d.Retry(op.dead, op.next, op.reason);
    if d.text.Some? { KeyFenced(d.text.value, op, b); }
    forall i | 0 <= i < |d.files|
      ensures PartKey(d'.files[i]) != b && !Mentions(d'.files[i].reason, b)
    {
      KeyFenced(d.files[i], op, b);
      assert b in op.dead || (PartKey(d.files[i]) != b && !Mentions(d.files[i].reason, b));
    }
  }

  lemma KeyFenced(p: Part, op: RetryOp, b: BridgeId)
    requires Excluded(b, op)
    ensures var p' := RetryPart(p, op.dead, op.next, op.reason);
            && (b in op.dead || PartKey(p) != b ==> PartKey(p') != b)
            && (b in op.dead || !Mentions(p.reason, b) ==> !Mentions(p'.reason, b))
  {
    assert b in op.dead && References(p, b) ==> ReferencesAny(p, op.dead);
  }

  lemma QueueFenced(q: QueueItem, op: RetryOp, b: BridgeId)
    requires Excluded(b, op) && q.status != Rejected
    requires b in op.dead || !QueueMentions(q, b)
    ensures !QueueMentions(QueueRetry(q, op), b)
  {
    if QueueReferencesAny(q, op.dead) {
      ReplacedMembers(q.bridgeIds, op.dead, op.next, b);
      if q.details.Some? { DetailsFenced(q.details.value, op, b); }
    } else {
      assert b in op.dead ==> !QueueReferences(q, b);
    }
  }

  // ---------------------------------------------------------------- chains of retries

  function Retries(s: SendState, ops: seq<RetryOp>): (r: SendState)
    ensures |r.tasks| == |s.tasks|
  {
    if ops == [] then s else SyncRetry(Retries(s, ops[..|ops| - 1]), ops[|ops| - 1])
  }

  /** `b` was superseded by some retry of the chain, and by no later step brought back. */
  ghost predicate Superseded(ops: seq<RetryOp>, b: BridgeId) {
    exists i | 0 <= i < |ops| :: b in ops[i].dead && forall j | i <= j < |ops| :: Excluded(b, ops[j])
  }

  /** Nothing but the queue's `retryOf` still references `b`. */
  ghost predicate Fenced(s: SendState, b: BridgeId) {
    && !LedgerMatches(s.ledger, b)
    && (forall i | 0 <= i < |s.tasks| :: !TaskReferences(s.tasks[i], b))
    && !QueueMentions(s.queue, b)
  }

  lemma FencedStep(s: SendState, op: RetryOp, b: BridgeId)
    requires Excluded(b, op) && s.queue.status != Rejected && (b in op.dead || Fenced(s, b))
    ensures Fenced(SyncRetry(s, op), b)
  {
    LedgerFenced(s.ledger, op, b);
    forall i | 0 <= i < |s.tasks| { TaskFenced(s.tasks[i], op, b); }
    QueueFenced(s.queue, op, b);
  }

  /** A queue item whose recorded acks are terminal, and that was not rejected. */
  ghost predicate Retriable(q: QueueItem) {
    q.status != Rejected && forall c | c in q.acks :: q.acks[c].status in {Sent, Accepted, Failed}
  }

  lemma RetriableStep(s: SendState, op: RetryOp)
    requires Retriable(s.queue)
    ensures Retriable(SyncRetry(s, op).queue)
  {
  }

  lemma {:induction false} ChainRetriable(s: SendState, ops: seq<RetryOp>)
    requires Retriable(s.queue)
    ensures Retriable(Retries(s, ops).queue)
  {
    if ops != [] {
      ChainRetriable(s, ops[..|ops| - 1]);
      RetriableStep(Retries(s, ops[..|ops| - 1]), ops[|ops| - 1]);
    }
  }

  lemma SupersededBefore(ops: seq<RetryOp>, b: BridgeId)
    requires Superseded(ops, b)
    ensures ops != [] && Excluded(b, ops[|ops| - 1]) && (b in ops[|ops| - 1].dead || Superseded(ops[..|ops| - 1], b))
  {
    var i :| 0 <= i < |ops| && b in ops[i].dead && forall j | i <= j < |ops| :: Excluded(b, ops[j]);
    var init := ops[..|ops| - 1];
    assert i < |init| ==> b in init[i].dead && forall j | i <= j < |init| :: Excluded(b, init[j]);
  }

  /** After any chain of retries no superseded id is referenced by the ledger record, its parts,
      its attachments or any task, nor by the queue item except as the latest retry parent. */
  lemma {:induction false} ChainFenced(s: SendState, ops: seq<RetryOp>, b: BridgeId)
    requires Retriable(s.queue) && Superseded(ops, b)
    ensures Fenced(Retries(s, ops), b)
    ensures QueueReferences(Retries(s, ops).queue, b) <==> Retries(s, ops).queue.retryOf == b
  {
    SupersededBefore(ops, b);
    var init, op := ops[..|ops| - 1], ops[|ops| - 1];
    ChainRetriable(s, init);
    if b !in op.dead { ChainFenced(s, init, b); }
    FencedStep(Retries(s, init), op, b);
    OnlyParentReferenced(Retries(s, ops).queue, b);
  }

  lemma OnlyParentReferenced(q: QueueItem, b: BridgeId)
    requires !QueueMentions(q, b)
    ensures QueueReferences(q, b) <==> q.retryOf == b
  {
  }

  // ---------------------------------------------------------------- late acks

  /** A late ack for a fenced id changes nothing at all, unless the id is the queue's retry parent
      and the queue takes the ack: then it changes the reply's state.  The queue takes it when the item is
      sent already or may go over to the new fold. */
  lemma LateAck(s: SendState, a: Ack)
    requires Fenced(s, a.id)
    ensures SyncAck(s, a) == s
            <==> s.queue.retryOf != a.id || (s.queue.status != Sent && !Allowed(s.queue.status, NextStatus(s.queue, a)))
  {
    assert QueueReferences(s.queue, a.id) <==> s.queue.retryOf == a.id;
    forall i | 0 <= i < |s.tasks| ensures SyncAck(s, a).tasks[i] == s.tasks[i] {}
    assert SyncAck(s, a).tasks == s.tasks;
    match ApplyAck(s.queue, a)
    case NotFound =>
    case Refused =>
    case Preserved(reason) =>
      assert LedgerAfter(s.queue, s.ledger, a).top.messageId == a.id;
    case Updated(item, _) =>
      assert a.id in item.acks;
  }

  /** So after a chain, a late ack for a superseded id is ignored by ledger, tasks and queue alike,
      if it is not the parent of the latest retry. */
  lemma LateAckIgnored(s: SendState, ops: seq<RetryOp>, a: Ack)
    requires Retriable(s.queue) && Superseded(ops, a.id)
    requires Retries(s, ops).queue.retryOf != a.id
    ensures SyncAck(Retries(s, ops), a) == Retries(s, ops)
  {
    ChainFenced(s, ops, a.id);
    LateAck(Retries(s, ops), a);
  }
}
