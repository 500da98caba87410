/** The operations on one conversation's ledger, each under the conversation lock, and what every run of
    them keeps. */
module LedgerRuns {
  import opened Wrappers
  import opened LedgerEntries
  import opened LedgerMerge
  import opened Redelivery

  datatype ReplyCandidate = ReplyCandidate(messageId: string, createdAt: string, title: string, blocks: seq<Block>,
                                           links: seq<Link>, facts: string)

  function ReplyKey(r: ReplyCandidate): string {
    "reply:" + r.messageId + ":" + r.createdAt
  }

  function NewReply(r: ReplyCandidate, sequence: int): Entry {
    Entry(ReplyKey(r), r.messageId, [r.messageId], "", sequence, Assistant, "active",
          r.title, r.blocks, r.links, Send("candidate", "", ""), r.facts)
  }

  datatype Op =
    | Incoming(m: Message, registryTitle: string)
    | Reply(r: ReplyCandidate)
    | ReplyIfLatest(r: ReplyCandidate, expected: int)
    | SendResult(key: string, status: string, rest: string)
    | BridgeResult(keys: set<string>, status: string, rest: string)
    | Recall(id: string)
    | AnnotateLink(key: string, urlId: string, status: string, note: string, evidence: Option<Block>)
    | AnnotateEntry(key: string, block: Block)
    | Purge

  // ---------------------------------------------------------------- appending

  function WithoutKey(entries: seq<Entry>, key: string): seq<Entry> {
    if entries == [] then []
    else (if entries[0].key == key then [] else [entries[0]]) + WithoutKey(entries[1..], key)
  }

  /** A row with the key is replaced, and moves to the end with its new sequence. */
  function Appended(entries: seq<Entry>, e: Entry): seq<Entry> {
    WithoutKey(entries, e.key) + [e]
  }

  predicate LatestIs(entries: seq<Entry>, expected: int) {
    MaxSequence(entries) == if expected > 0 then expected else 0
  }

  predicate Answered(entries: seq<Entry>, messageId: string) {
    exists i | 0 <= i < |entries| :: entries[i].role == Assistant && entries[i].messageId == messageId
  }

  predicate Accepts(entries: seq<Entry>, r: ReplyCandidate, expected: int) {
    LatestIs(entries, expected) && !Answered(entries, r.messageId)
  }

  // ---------------------------------------------------------------- changing entries in place

  function AnnotatedLinks(links: seq<Link>, urlId: string, status: string, note: string): seq<Link> {
    var updated := seq(|links|, i requires 0 <= i < |links| =>
      if links[i].urlId == urlId then links[i].(status := status, note := note) else links[i]);
    if exists l | l in links :: l.urlId == urlId then updated else updated + [Link(urlId, "", status, note)]
  }

  predicate SamePlace(b: Block, c: Block) {
    b.kind == c.kind && b.sourceRef == c.sourceRef
  }

  function UpsertBlock(blocks: seq<Block>, b: Block): seq<Block> {
    var updated := seq(|blocks|, i requires 0 <= i < |blocks| => if SamePlace(blocks[i], b) then b else blocks[i]);
    if exists c | c in blocks :: SamePlace(c, b) then updated else updated + [b]
  }

  /** A result that came in is not taken back by an earlier stage. */
  predicate Downgrade(had: string, status: string) {
    && had in ["sent", "accepted", "failed"]
    && status in ["", "pending", "queued_for_confirm", "queued_to_bridge"]
  }

  /** What an operation makes of one entry. */
  function Touched(op: Op, e: Entry): Entry {
    match op
    case SendResult(key, status, rest) =>
      if e.key != key then e
      else if Downgrade(e.send.status, status) then e
      else e.(send := e.send.(status := status, rest := rest))
    case BridgeResult(keys, status, rest) =>
      if e.role == Assistant && e.key in keys then e.(send := e.send.(status := status, rest := rest)) else e
    case Recall(id) =>
      if id in EntryIds(e) && e.status == "active" then e.(status := "recalled") else e
    case AnnotateLink(key, urlId, status, note, evidence) =>
      if e.key != key then e
      else e.(links := AnnotatedLinks(e.links, urlId, status, note),
              blocks := if evidence.Some? && status == "completed" then UpsertBlock(e.blocks, evidence.value)
                        else e.blocks)
    case AnnotateEntry(key, block) =>
      if e.key != key then e else e.(blocks := UpsertBlock(e.blocks, block))
    case _ => e
  }

  function TouchedAll(entries: seq<Entry>, op: Op): (r: seq<Entry>)
    ensures |r| == |entries| && forall i | 0 <= i < |r| :: r[i] == Touched(op, entries[i])
  {
    seq(|entries|, i requires 0 <= i < |entries| => Touched(op, entries[i]))
  }

  function Apply(entries: seq<Entry>, op: Op): seq<Entry> {
    match op
    case Incoming(m, registryTitle) => Deliver(entries, m, registryTitle).entries
    case Reply(r) => Appended(entries, NewReply(r, NextSequence(entries)))
    case ReplyIfLatest(r, expected) =>
      if Accepts(entries, r, expected) then Appended(entries, NewReply(r, NextSequence(entries))) else entries
    case Purge => []
    case _ => TouchedAll(entries, op)
  }

  function Run(entries: seq<Entry>, ops: seq<Op>): seq<Entry> {
    if ops == [] then entries else Apply(Run(entries, ops[..|ops| - 1]), ops[|ops| - 1])
  }

  /** Message ids are not empty and are no reply keys; the links of one text agree. */
  ghost predicate Proper(op: Op) {
    match op
    case Incoming(m, _) => m.id != "" && !("reply:" <= m.id) && LinksAgree(m.links)
    case Reply(r) => LinksAgree(r.links)
    case ReplyIfLatest(r, _) => LinksAgree(r.links)
    case _ => true
  }

  // ---------------------------------------------------------------- the invariant

  ghost predicate EntryOk(e: Entry) {
    && e.sequence >= 1 && e.key != "" && (e.key == e.messageId || "reply:" <= e.key)
    && (if e.role == Assistant then e.messageIds == [e.messageId] else e.messageId != "")
    && LinksAgree(e.links)
  }

  /** Sequences ascend, keys differ, and of two entries with one primary id the later is a reply. */
  predicate Precedes(e: Entry, f: Entry) {
    e.sequence < f.sequence && e.key != f.key && (e.messageId == f.messageId != "" ==> f.role == Assistant)
  }

  ghost predicate Authority(entries: seq<Entry>) {
    && (forall i | 0 <= i < |entries| :: EntryOk(entries[i]))
    && (forall i, j | 0 <= i < j < |entries| :: Precedes(entries[i], entries[j]))
  }

  lemma AuthorityIsSound(entries: seq<Entry>)
    requires Authority(entries)
    ensures Sound(entries)
  {
    forall i, j | 0 <= i < j < |entries|
      ensures entries[i].key != entries[j].key
    {
      assert Precedes(entries[i], entries[j]);
    }
    forall i | 0 <= i < |entries|
      ensures LinksAgree(entries[i].links) && entries[i].key != ""
    {
      assert EntryOk(entries[i]);
    }
  }

  lemma {:induction false} MaxIsLast(entries: seq<Entry>)
    requires Authority(entries)
    ensures MaxSequence(entries) == if entries == [] then 0 else entries[|entries| - 1].sequence
  {
    if |entries| > 1 {
      MaxIsLast(entries[..|entries| - 1]);
      assert Precedes(entries[|entries| - 2], entries[|entries| - 1]);
    } else if |entries| == 1 {
      assert EntryOk(entries[0]);
    }
  }

  lemma {:induction false} WithoutKeyExact(entries: seq<Entry>, key: string)
    ensures forall e :: e in WithoutKey(entries, key) <==> e in entries && e.key != key
    ensures (forall e | e in entries :: e.key != key) ==> WithoutKey(entries, key) == entries
  {
    if entries != [] {
      assert entries == [entries[0]] + entries[1..];
      WithoutKeyExact(entries[1..], key);
    }
  }

  lemma AuthorityTail(entries: seq<Entry>)
    requires Authority(entries) && entries != []
    ensures Authority(entries[1..]) && forall x | x in entries[1..] :: Precedes(entries[0], x)
  {
    var rest := entries[1..];
    forall i, j | 0 <= i < j < |rest|
      ensures Precedes(rest[i], rest[j])
    {
      assert Precedes(entries[i + 1], entries[j + 1]);
    }
    forall i | 0 <= i < |rest|
      ensures EntryOk(rest[i]) && Precedes(entries[0], rest[i])
    {
      assert rest[i] == entries[i + 1];
    }
  }

  lemma AuthorityCons(e: Entry, rest: seq<Entry>)
    requires EntryOk(e) && Authority(rest) && forall x | x in rest :: Precedes(e, x)
    ensures Authority([e] + rest)
  {
    var all := [e] + rest;
    forall i, j | 0 <= i < j < |all| ensures Precedes(all[i], all[j]) {
      if i == 0 { assert all[j] in rest; } else { assert Precedes(rest[i - 1], rest[j - 1]); }
    }
  }

  lemma AuthoritySnoc(rest: seq<Entry>, e: Entry)
    requires EntryOk(e) && Authority(rest) && forall x | x in rest :: Precedes(x, e)
    ensures Authority(rest + [e])
  {
    var all := rest + [e];
    forall i, j | 0 <= i < j < |all| ensures Precedes(all[i], all[j]) {
      if j == |rest| { assert all[i] in rest; } else { assert Precedes(rest[i], rest[j]); }
    }
  }

  /** Removing a row keeps all pairwise properties of the list. */
  lemma {:induction false} WithoutKeyKeeps(entries: seq<Entry>, key: string)
    requires Authority(entries)
    ensures Authority(WithoutKey(entries, key))
  {
    if entries != [] {
      AuthorityTail(entries);
      WithoutKeyKeeps(entries[1..], key);
      WithoutKeyExact(entries[1..], key);
      if entries[0].key == key {
        assert WithoutKey(entries, key) == WithoutKey(entries[1..], key);
      } else {
        AuthorityCons(entries[0], WithoutKey(entries[1..], key));
      }
    }
  }

  /** The last entry has the largest sequence. */
  lemma BelowNext(entries: seq<Entry>, e: Entry)
    requires Authority(entries) && e in entries
    ensures e.sequence < NextSequence(entries)
  {
    MaxIsLast(entries);
    var k :| 0 <= k < |entries| && entries[k] == e;
    assert k < |entries| - 1 ==> Precedes(e, entries[|entries| - 1]);
  }

  lemma AppendKeeps(entries: seq<Entry>, e: Entry)
    requires Authority(entries) && EntryOk(e) && e.sequence == NextSequence(entries)
    requires e.role == Assistant || forall x | x in entries :: x.messageId != e.messageId
    ensures Authority(Appended(entries, e))
  {
    WithoutKeyKeeps(entries, e.key);
    WithoutKeyExact(entries, e.key);
    forall x | x in WithoutKey(entries, e.key) ensures Precedes(x, e) { BelowNext(entries, x); }
    AuthoritySnoc(WithoutKey(entries, e.key), e);
  }

  // ---------------------------------------------------------------- every operation keeps it

  /** Changes that leave an entry where it is and what it is. */
  ghost predicate InPlace(e: Entry, u: Entry) {
    && u.key == e.key && u.sequence == e.sequence
    && u.messageId == e.messageId && u.messageIds == e.messageIds && u.role == e.role
  }

  lemma TouchedInPlace(op: Op, e: Entry)
    requires EntryOk(e)
    ensures InPlace(e, Touched(op, e)) && EntryOk(Touched(op, e)) && Touched(op, e).send.echoId == e.send.echoId
  {
    if op.AnnotateLink? && e.key == op.key { AnnotatedAgree(e.links, op.urlId, op.status, op.note); }
  }

  lemma AnnotatedAgree(links: seq<Link>, urlId: string, status: string, note: string)
    requires LinksAgree(links)
    ensures LinksAgree(AnnotatedLinks(links, urlId, status, note))
  {
    var r := AnnotatedLinks(links, urlId, status, note);
    forall l | l in r ensures Origin(links, urlId, status, note, l) {
      var i :| 0 <= i < |r| && r[i] == l;
      if i < |links| { assert links[i] in links; }
    }
  }

  /** Where a link of the annotated list comes from. */
  ghost predicate Origin(links: seq<Link>, urlId: string, status: string, note: string, l: Link) {
    || (l in links && l.urlId != urlId)
    || (l.urlId == urlId && l.(status := status, note := note) == l
        && exists k | k in links :: k.urlId == urlId && k.url == l.url)
    || (l == Link(urlId, "", status, note) && forall k | k in links :: k.urlId != urlId)
  }

  lemma TouchedKeeps(entries: seq<Entry>, op: Op)
    requires Authority(entries)
    ensures Authority(TouchedAll(entries, op))
  {
    var r := TouchedAll(entries, op);
    forall i | 0 <= i < |r| ensures EntryOk(r[i]) { TouchedInPlace(op, entries[i]); }
    forall i, j | 0 <= i < j < |r| ensures Precedes(r[i], r[j]) {
      assert Precedes(entries[i], entries[j]);
      TouchedInPlace(op, entries[i]);
      TouchedInPlace(op, entries[j]);
    }
  }

  /** Replacing an entry: it may only change its role, and only from a reply to something earlier than
      every other reply to it. */
  lemma ReplaceKeeps(entries: seq<Entry>, at: nat, u: Entry)
    requires Authority(entries) && at < |entries| && EntryOk(u)
    requires u.key == entries[at].key && u.sequence == entries[at].sequence && u.messageId == entries[at].messageId
    requires u.role != Assistant && entries[at].role == Assistant ==>
               forall k | 0 <= k < at :: entries[k].messageId != u.messageId
    ensures Authority(entries[at := u])
  {
    var r := entries[at := u];
    forall i, j | 0 <= i < j < |r| ensures Precedes(r[i], r[j]) { assert Precedes(entries[i], entries[j]); }
  }

  lemma MergeKeepsPlace(e: Entry, m: Message, registryTitle: string)
    requires EntryOk(e) && m.id != "" && !("reply:" <= m.id) && LinksAgree(m.links)
    requires e.role == Assistant ==> m.id in EntryIds(e)
    ensures var u := Merge(e, m, registryTitle);
            && EntryOk(u) && u.key == e.key && u.sequence == e.sequence && u.messageId == e.messageId
            && u.role != Assistant && u.send == e.send && (e.role == Assistant ==> e.messageId == m.id)
  {
    MergedLinksAgree(m.links, e.links);
    EntryIdsExact(e);
  }

  lemma NobodyListed(entries: seq<Entry>, m: Message)
    requires Authority(entries) && FindById(entries, m.id).None? && m.id != "" && !("reply:" <= m.id)
    ensures forall e | e in entries :: e.messageId != m.id && e.key != m.id
  {
    forall e | e in entries ensures e.messageId != m.id && e.key != m.id {
      var k :| 0 <= k < |entries| && entries[k] == e;
      EntryIdsExact(entries[k]);
      assert EntryOk(entries[k]) && m.id !in EntryIds(entries[k]);
    }
  }

  lemma UpdateKeeps(entries: seq<Entry>, m: Message, registryTitle: string, at: nat)
    requires Authority(entries) && Proper(Incoming(m, registryTitle)) && at < |entries|
    requires FindById(entries, m.id) == Some(at) || entries[at].role != Assistant
    ensures Authority(entries[at := Merge(entries[at], m, registryTitle)])
  {
    assert EntryOk(entries[at]);
    MergeKeepsPlace(entries[at], m, registryTitle);
    if entries[at].role == Assistant {
      forall k | 0 <= k < at ensures entries[k].messageId != m.id {
        EntryIdsExact(entries[k]);
        assert m.id !in EntryIds(entries[k]);
      }
    }
    ReplaceKeeps(entries, at, Merge(entries[at], m, registryTitle));
  }

  lemma ShapeKeeps(entries: seq<Entry>, m: Message, registryTitle: string, d: Delivery)
    requires Authority(entries) && Proper(Incoming(m, registryTitle)) && DeliveryShape(entries, m, registryTitle, d)
    ensures Authority(d.entries)
  {
    match d.verdict
    case Duplicate =>
    case Created =>
      var e := NewEntry(m, registryTitle, NextSequence(entries));
      NobodyListed(entries, m);
      WithoutKeyExact(entries, e.key);
      MaxIsLast(entries);
      assert entries != [] ==> EntryOk(entries[|entries| - 1]);
      AppendKeeps(entries, e);
    case Updated =>
      UpdateKeeps(entries, m, registryTitle, d.at);
    case EchoConfirmed =>
      assert EntryOk(entries[d.at]);
      ReplaceKeeps(entries, d.at, Echoed(entries[d.at], m));
  }

  lemma IncomingKeeps(entries: seq<Entry>, m: Message, registryTitle: string)
    requires Authority(entries) && Proper(Incoming(m, registryTitle))
    ensures Authority(Deliver(entries, m, registryTitle).entries)
  {
    AuthorityIsSound(entries);
    DeliveryHasShape(entries, m, registryTitle);
    ShapeKeeps(entries, m, registryTitle, Deliver(entries, m, registryTitle));
  }

  /** Every operation keeps the authority invariant. */
  lemma ApplyKeeps(entries: seq<Entry>, op: Op)
    requires Authority(entries) && Proper(op)
    ensures Authority(Apply(entries, op))
  {
    match op
    case Incoming(m, registryTitle) => IncomingKeeps(entries, m, registryTitle);
    case Reply(r) => ReplyKeeps(entries, r);
    case ReplyIfLatest(r, expected) => ReplyKeeps(entries, r);
    case Purge =>
    case _ => TouchedKeeps(entries, op);
  }

  lemma ReplyKeeps(entries: seq<Entry>, r: ReplyCandidate)
    requires Authority(entries) && LinksAgree(r.links)
    ensures Authority(Appended(entries, NewReply(r, NextSequence(entries))))
  {
    MaxIsLast(entries);
    assert entries != [] ==> EntryOk(entries[|entries| - 1]);
    AppendKeeps(entries, NewReply(r, NextSequence(entries)));
  }

  ghost predicate AllProper(ops: seq<Op>) {
    forall k | 0 <= k < |ops| :: Proper(ops[k])
  }

  /** Over every run: sequences ascend strictly, keys are distinct, and no two pulled messages share a
      primary id. */
  lemma {:induction false} RunKeeps(entries: seq<Entry>, ops: seq<Op>)
    requires Authority(entries) && AllProper(ops)
    ensures Authority(Run(entries, ops))
  {
    if ops != [] {
      RunKeeps(entries, ops[..|ops| - 1]);
      ApplyKeeps(Run(entries, ops[..|ops| - 1]), ops[|ops| - 1]);
    }
  }

  /** Two pulled messages at different places of the list have different primary ids. */
  lemma PulledPrimariesDiffer(entries: seq<Entry>, ops: seq<Op>)
    requires Authority(entries) && AllProper(ops)
    ensures var r := Run(entries, ops);
            forall i, j | 0 <= i < j < |r| && r[i].role != Assistant && r[j].role != Assistant ::
              r[i].messageId != r[j].messageId
  {
    RunKeeps(entries, ops);
    PrimariesDiffer(Run(entries, ops));
  }

  lemma PrimariesDiffer(r: seq<Entry>)
    requires Authority(r)
    ensures forall i, j | 0 <= i < j < |r| && r[i].role != Assistant && r[j].role != Assistant ::
              r[i].messageId != r[j].messageId
  {
    forall i, j | 0 <= i < j < |r| && r[i].role != Assistant && r[j].role != Assistant
      ensures r[i].messageId != r[j].messageId
    {
      assert Precedes(r[i], r[j]) && EntryOk(r[i]);
    }
  }
}
