/** Delivery statuses, the parts of a multi-part reply, and the two aggregators.

  The confirm queue and the conversation ledger each keep their own copy of a
  reply's parts and each fold part statuses into one status with their own code.
  Both folds are written out here as their files write them, next to the
  order-theoretic reference (`IsMeet`) that both are measured against.
 */
module SendParts {
  import opened Wrappers

  /** Statuses of queue items, ledger sends and parts.  Part statuses are normally the
      four of `Delivery`; `Blocked` reaches the ledger only through a raw ack. */
  datatype Status = Pending | Approved | Rejected | Queued | Accepted | Sent | Failed | Blocked

  /** The terminal bridge acks. */
  datatype AckStatus = AckSent | AckAccepted | AckFailed | AckBlocked

  /** Bridge ids never contain a blank. */
  type BridgeId = s: string | "bridge:" <= s && ' ' !in s witness "bridge:"

  predicate Delivery(s: Status) {
    s == Failed || s == Queued || s == Accepted || s == Sent
  }

  /** What the queue and the task make of an ack: everything that is neither sent nor accepted failed. */
  function Mapped(a: AckStatus): Status {
    match a
    case AckSent => Sent
    case AckAccepted => Accepted
    case AckFailed => Failed
    case AckBlocked => Failed
  }

  /** What the ledger is given: the ack's own status. */
  function Raw(a: AckStatus): Status {
    match a
    case AckSent => Sent
    case AckAccepted => Accepted
    case AckFailed => Failed
    case AckBlocked => Blocked
  }

  predicate OccursAt(text: string, id: string, i: int) {
    0 <= i <= |text| - |id| && text[i..i + |id|] == id
  }

  /** `id in text`, Python's substring test. */
  predicate Mentions(text: string, id: string) {
    exists i | 0 <= i <= |text| - |id| :: OccursAt(text, id, i)
  }

  // ---------------------------------------------------------------- parts

  /** A text part, a file part, or the send record of one attachment. */
  datatype Part = Part(messageId: string, bridgeId: string, externalId: string, status: Status, reason: string)

  /** One id field equals the id, or the reason contains it. */
  predicate References(p: Part, id: string) {
    p.messageId == id || p.bridgeId == id || p.externalId == id || Mentions(p.reason, id)
  }

  function WithAck(p: Part, status: Status, reason: string): Part {
    p.(status := status, reason := reason)
  }

  function AckPart(p: Part, id: BridgeId, status: Status, reason: string): Part {
    if References(p, id) then WithAck(p, status, reason) else p
  }

  function AckParts(ps: seq<Part>, id: BridgeId, status: Status, reason: string): (r: seq<Part>)
    ensures |r| == |ps|
    ensures forall i | 0 <= i < |ps| :: r[i] == AckPart(ps[i], id, status, reason)
  {
    seq(|ps|, i requires 0 <= i < |ps| => AckPart(ps[i], id, status, reason))
  }

  function ReplaceField(field: string, dead: set<BridgeId>, next: BridgeId): string {
    if field in dead then next else field
  }

  predicate ReferencesAny(p: Part, ids: set<BridgeId>) {
    exists b | b in ids :: References(p, b)
  }

  function RetryPart(p: Part, dead: set<BridgeId>, next: BridgeId, reason: string): Part {
    if ReferencesAny(p, dead)
    then Part(ReplaceField(p.messageId, dead, next), ReplaceField(p.bridgeId, dead, next),
              ReplaceField(p.externalId, dead, next), Queued, reason)
    else p
  }

  function RetryParts(ps: seq<Part>, dead: set<BridgeId>, next: BridgeId, reason: string): (r: seq<Part>)
    ensures |r| == |ps|
    ensures forall i | 0 <= i < |ps| :: r[i] == RetryPart(ps[i], dead, next, reason)
  {
    seq(|ps|, i requires 0 <= i < |ps| => RetryPart(ps[i], dead, next, reason))
  }

  /** A send's `details`: an id list, at most one text part, and the file parts. */
  datatype Details = Details(ids: seq<BridgeId>, text: Option<Part>, files: seq<Part>) {
    function Parts(): seq<Part> {
      (match text case None => [] case Some(t) => [t]) + files
    }

    function Ack(id: BridgeId, status: Status, reason: string): (d: Details)
      ensures d.ids == ids
      ensures d.Parts() == AckParts(Parts(), id, status, reason)
    {
      match text
      case None => Details(ids, None, AckParts(files, id, status, reason))
      case Some(t) => Details(ids, Some(AckPart(t, id, status, reason)), AckParts(files, id, status, reason))
    }

    function Retry(dead: set<BridgeId>, next: BridgeId, reason: string): (d: Details)
      ensures d.Parts() == RetryParts(Parts(), dead, next, reason)
    {
      Details(RetryIds(ids, dead, next),
              match text case None => None case Some(t) => Some(RetryPart(t, dead, next, reason)),
              RetryParts(files, dead, next, reason))
    }
  }

  function PartsOf(d: Option<Details>): seq<Part> {
    match d case None => [] case Some(x) => x.Parts()
  }

  function Statuses(ps: seq<Part>): (r: seq<Status>)
    ensures |r| == |ps|
    ensures forall i | 0 <= i < |ps| :: r[i] == ps[i].status
  {
    seq(|ps|, i requires 0 <= i < |ps| => ps[i].status)
  }

  // ---------------------------------------------------------------- id lists

  /** Keep the first occurrence of each id. */
  function Dedupe(ids: seq<BridgeId>): (r: seq<BridgeId>)
    ensures Distinct(r)
    ensures forall b :: b in r <==> b in ids
    ensures Distinct(ids) ==> r == ids
  {
    if ids == [] then []
    else
      var init := Dedupe(ids[..|ids| - 1]);
      var last := ids[|ids| - 1];
      assert ids == ids[..|ids| - 1] + [last];
      if last in init then init else init + [last]
  }

  predicate Distinct<T(==)>(s: seq<T>) {
    forall i, j | 0 <= i < j < |s| :: s[i] != s[j]
  }

  function ReplaceAll(ids: seq<BridgeId>, dead: set<BridgeId>, next: BridgeId): seq<BridgeId> {
    seq(|ids|, i requires 0 <= i < |ids| => if ids[i] in dead then next else ids[i])
  }

  function ReplaceIds(ids: seq<BridgeId>, dead: set<BridgeId>, next: BridgeId): seq<BridgeId> {
    Dedupe(ReplaceAll(ids, dead, next))
  }

  /** Replace, then append the new id when it is still missing. */
  function RetryIds(ids: seq<BridgeId>, dead: set<BridgeId>, next: BridgeId): seq<BridgeId> {
    var r := ReplaceIds(ids, dead, next);
    if next in r then r else r + [next]
  }

  // ---------------------------------------------------------------- aggregation

  /** The order failed < queued < accepted < sent. */
  function Rank(s: Status): nat {
    match s
    case Failed => 0
    case Queued => 1
    case Accepted => 2
    case _ => 3
  }

  /** `m` is the least of the statuses `S`, and one of them. */
  ghost predicate IsMeet(m: Status, S: set<Status>) {
    m in S && forall s | s in S :: Rank(m) <= Rank(s)
  }

  /** An ack as the queue and the task record it. */
  datatype AckRecord = AckRecord(status: Status, reason: string)

  function RecordedStatus(acks: map<BridgeId, AckRecord>, id: BridgeId): Status {
    if id in acks then acks[id].status else Queued
  }

  function RecordedStatuses(ids: seq<BridgeId>, acks: map<BridgeId, AckRecord>): (r: seq<Status>)
    ensures |r| == |ids|
    ensures forall i | 0 <= i < |ids| :: r[i] == RecordedStatus(acks, ids[i])
  {
    seq(|ids|, i requires 0 <= i < |ids| => RecordedStatus(acks, ids[i]))
  }

  /** The queue's fold: local part statuses first, then one status per expected id. */
  function AggregateQueue(ids: seq<BridgeId>, acks: map<BridgeId, AckRecord>, extra: seq<Status>): Status {
    var statuses := extra + RecordedStatuses(ids, acks);
    if Failed in statuses then Failed
    else if Queued in statuses then Queued
    else if Accepted in statuses then Accepted
    else if statuses != [] && (forall s | s in statuses :: s == Sent) then Sent
    else if statuses != [] then statuses[|statuses| - 1] else Failed
  }

  /** The ledger's fold over the statuses of the parts; `None` when there are none. */
  function AggregateLedger(statuses: seq<Status>): Option<Status> {
    if statuses == [] then None
    else if Failed in statuses then Some(Failed)
    else if Queued in statuses then Some(Queued)
    else if Accepted in statuses then Some(Accepted)
    else if forall s | s in statuses :: s == Sent then Some(Sent)
    else Some(statuses[|statuses| - 1])
  }

  ghost function Elements<T(!new)>(s: seq<T>): (r: set<T>)
    ensures forall x :: x in r <==> x in s
  {
    set x | x in s
  }

  /** On delivery statuses the queue's fold is the meet. */
  lemma AggregateQueueIsMeet(ids: seq<BridgeId>, acks: map<BridgeId, AckRecord>, extra: seq<Status>)
    requires |extra| + |ids| > 0
    requires forall s | s in extra :: Delivery(s)
    requires forall b | b in ids :: Delivery(RecordedStatus(acks, b))
    ensures IsMeet(AggregateQueue(ids, acks, extra), Elements(extra + RecordedStatuses(ids, acks)))
    ensures Delivery(AggregateQueue(ids, acks, extra))
  {
    var statuses := extra + RecordedStatuses(ids, acks);
    forall s | s in statuses ensures Delivery(s) {
      var i :| 0 <= i < |statuses| && statuses[i] == s;
      if i >= |extra| { assert s == RecordedStatus(acks, ids[i - |extra|]); }
    }
    assert statuses[0] in statuses;
  }

  /** On delivery statuses the ledger's fold is the meet too. */
  lemma AggregateLedgerIsMeet(statuses: seq<Status>)
    requires statuses != []
    requires forall s | s in statuses :: Delivery(s)
    ensures AggregateLedger(statuses).Some? && IsMeet(AggregateLedger(statuses).value, Elements(statuses))
  {
    assert statuses[0] in statuses;
  }

  /** Two meets over sets that contain the same delivery statuses are equal. */
  lemma MeetUnique(m: Status, n: Status, S: set<Status>, T: set<Status>)
    requires IsMeet(m, S) && IsMeet(n, T) && S == T
    requires forall s | s in S :: Delivery(s)
    ensures m == n
  {
  }
}
