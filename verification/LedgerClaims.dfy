/** Claims over runs of one conversation's ledger: which echo an entry belongs to, and when a reply is
    accepted behind the snapshot it was written for. */
module LedgerClaims {
  import opened Wrappers
  import opened LedgerEntries
  import opened LedgerMerge
  import opened Redelivery
  import opened LedgerRuns

  // ---------------------------------------------------------------- echoes

  /** The operation is proper and stores no second reply under a key in use. */
  ghost predicate FreshKeys(entries: seq<Entry>, op: Op) {
    && Proper(op) && !op.Purge?
    && (op.Reply? || op.ReplyIfLatest? ==> forall i | 0 <= i < |entries| :: entries[i].key != ReplyKey(op.r))
  }

  ghost predicate AllFresh(entries: seq<Entry>, ops: seq<Op>) {
    forall k | 0 <= k < |ops| :: FreshKeys(Run(entries, ops[..k]), ops[k])
  }

  /** Entries stay where they are; a claim, once made, stays as it is, and so does a recall. */
  ghost predicate Claims(e: Entry, u: Entry) {
    && u.key == e.key && u.sequence == e.sequence && (e.send.echoId != "" ==> u.send.echoId == e.send.echoId)
    && (e.status == "recalled" ==> u.status == "recalled")
  }

  ghost predicate Extends(entries: seq<Entry>, later: seq<Entry>) {
    |entries| <= |later| && forall i | 0 <= i < |entries| :: Claims(entries[i], later[i])
  }

  /** A new claim is made only by an incoming message of one's own whose text is the entry's text, on a
      reply that was handed to the bridge, and it carries that message's id. */
  ghost predicate JustClaimed(e: Entry, u: Entry, op: Op) {
    u.send.echoId != e.send.echoId ==>
      && op.Incoming? && op.m.isSelf && op.m.text != "" && PrimaryText(e.blocks) == op.m.text
      && e.role == Assistant && e.send.status in ["queued_to_bridge", "accepted", "sent"]
      && e.send.echoId == "" && u.send.echoId == op.m.id && u.send.status == "sent"
  }

  lemma AppendedAtEnd(entries: seq<Entry>, e: Entry)
    requires forall i | 0 <= i < |entries| :: entries[i].key != e.key
    ensures Appended(entries, e) == entries + [e]
  {
    WithoutKeyExact(entries, e.key);
  }

  lemma ShapeExtends(entries: seq<Entry>, m: Message, registryTitle: string, d: Delivery)
    requires Authority(entries) && Proper(Incoming(m, registryTitle)) && DeliveryShape(entries, m, registryTitle, d)
    ensures Extends(entries, d.entries)
    ensures forall i | 0 <= i < |entries| :: JustClaimed(entries[i], d.entries[i], Incoming(m, registryTitle))
  {
    if d.verdict == Updated {
      assert EntryOk(entries[d.at]);
      MergeKeepsPlace(entries[d.at], m, registryTitle);
      ReplacedExtends(entries, d.at, Merge(entries[d.at], m, registryTitle), Incoming(m, registryTitle));
    } else if d.verdict == EchoConfirmed {
      ReplacedExtends(entries, d.at, Echoed(entries[d.at], m), Incoming(m, registryTitle));
    }
  }

  lemma IncomingExtends(entries: seq<Entry>, m: Message, registryTitle: string)
    requires Authority(entries) && Proper(Incoming(m, registryTitle))
    ensures var later := Deliver(entries, m, registryTitle).entries;
            && Extends(entries, later)
            && forall i | 0 <= i < |entries| :: JustClaimed(entries[i], later[i], Incoming(m, registryTitle))
  {
    AuthorityIsSound(entries);
    DeliveryHasShape(entries, m, registryTitle);
    ShapeExtends(entries, m, registryTitle, Deliver(entries, m, registryTitle));
  }

  lemma ReplacedExtends(entries: seq<Entry>, at: nat, u: Entry, op: Op)
    requires at < |entries| && Claims(entries[at], u) && JustClaimed(entries[at], u, op)
    ensures Extends(entries, entries[at := u])
    ensures forall i | 0 <= i < |entries| :: JustClaimed(entries[i], entries[at := u][i], op)
  {
  }

  /** One operation: a claim is never changed, and only a matching echo makes one. */
  lemma ClaimStep(entries: seq<Entry>, op: Op)
    requires Authority(entries) && FreshKeys(entries, op)
    ensures Extends(entries, Apply(entries, op))
    ensures forall i | 0 <= i < |entries| :: JustClaimed(entries[i], Apply(entries, op)[i], op)
    ensures op.Incoming? && Deliver(entries, op.m, op.registryTitle).verdict == EchoConfirmed ==>
              |Apply(entries, op)| == |entries|
  {
    if op.Incoming? {
      IncomingExtends(entries, op.m, op.registryTitle);
    } else if op.Reply? || op.ReplyIfLatest? {
      AppendedAtEnd(entries, NewReply(op.r, NextSequence(entries)));
    } else {
      TouchedExtends(entries, op);
    }
  }

  lemma TouchedExtends(entries: seq<Entry>, op: Op)
    requires Authority(entries)
    ensures var later := TouchedAll(entries, op);
            Extends(entries, later) && forall i | 0 <= i < |entries| :: later[i].send.echoId == entries[i].send.echoId
  {
    forall i | 0 <= i < |entries|
      ensures Claims(entries[i], Touched(op, entries[i]))
      ensures Touched(op, entries[i]).send.echoId == entries[i].send.echoId
    {
      assert EntryOk(entries[i]);
      TouchedInPlace(op, entries[i]);
    }
  }

  /** Over every run a claim is write-once: no two echo ids ever claim the same entry. */
  lemma {:induction false} ClaimsAreWriteOnce(entries: seq<Entry>, ops: seq<Op>)
    requires Authority(entries) && AllFresh(entries, ops)
    ensures Authority(Run(entries, ops)) && Extends(entries, Run(entries, ops))
  {
    if ops != [] {
      var before := ops[..|ops| - 1];
      assert forall k | 0 <= k < |before| :: ops[..k] == before[..k];
      ClaimsAreWriteOnce(entries, before);
      var s, op := Run(entries, before), ops[|ops| - 1];
      assert FreshKeys(s, op);
      ApplyKeeps(s, op);
      ClaimStep(s, op);
      ExtendsTransitive(entries, s, Apply(s, op));
    }
  }

  lemma ExtendsTransitive(r: seq<Entry>, s: seq<Entry>, t: seq<Entry>)
    requires Extends(r, s) && Extends(s, t)
    ensures Extends(r, t)
  {
    forall i | 0 <= i < |r| ensures Claims(r[i], t[i]) { assert Claims(r[i], s[i]) && Claims(s[i], t[i]); }
  }

  /** What becomes of an echo of the entry at `at`. */
  ghost predicate EchoAgain(entries: seq<Entry>, m: Message, registryTitle: string, at: nat)
    requires at < |entries|
  {
    var d := Deliver(entries, m, registryTitle);
    && (d.verdict == EchoConfirmed && d.at == at
        <==> |entries| - ECHO_LOOKBACK <= at && EchoMatches(entries[at], m) && NoneLater(entries, m, at))
    && (EchoMatches(entries[at], m) ==>
          (d.verdict == EchoConfirmed && d.at != at
           <==> exists k | at < k < |entries| && |entries| - ECHO_LOOKBACK <= k :: EchoMatches(entries[k], m)))
  }

  ghost predicate NoneLater(entries: seq<Entry>, m: Message, at: nat) {
    forall k | at < k < |entries| :: !EchoMatches(entries[k], m)
  }

  lemma EchoDecided(entries: seq<Entry>, m: Message, registryTitle: string, at: nat)
    requires at < |entries| && FindById(entries, m.id).None? && m.isSelf && m.text != ""
    ensures EchoAgain(entries, m, registryTitle, at)
  {
  }

  /** An echo that comes again after any further operations.  Its entry still carries its id.  It is confirmed
      there exactly when the entry is still in the lookback window with its text and no later entry matches,
      and it claims a second entry exactly when a later one in the window matches. */
  lemma EchoAgainInAnyRun(entries: seq<Entry>, m: Message, registryTitle: string, ops: seq<Op>)
    requires Authority(entries) && Proper(Incoming(m, registryTitle))
    requires Deliver(entries, m, registryTitle).verdict == EchoConfirmed
    requires AllFresh(Deliver(entries, m, registryTitle).entries, ops)
    requires FindById(Run(Deliver(entries, m, registryTitle).entries, ops), m.id).None?
    ensures var at := Deliver(entries, m, registryTitle).at;
            var later := Run(Deliver(entries, m, registryTitle).entries, ops);
            && at < |later| && later[at].send.echoId == m.id && EchoAgain(later, m, registryTitle, at)
  {
    var d := Deliver(entries, m, registryTitle);
    AuthorityIsSound(entries);
    DeliveryHasShape(entries, m, registryTitle);
    IncomingKeeps(entries, m, registryTitle);
    ClaimsAreWriteOnce(d.entries, ops);
    var later := Run(d.entries, ops);
    assert Claims(d.entries[d.at], later[d.at]);
    EchoDecided(later, m, registryTitle, d.at);
  }

  // ---------------------------------------------------------------- redelivery in any run

  /** A message delivered off the echo path into any reachable ledger is recognised when it comes again,
      unless its id was just pushed out of the id list and nothing else finds the entry. */
  lemma RedeliveryInAnyRun(ops: seq<Op>, m: Message, registryTitle: string)
    requires AllProper(ops) && Proper(Incoming(m, registryTitle))
    ensures var entries := Run([], ops); var d := Deliver(entries, m, registryTitle);
            d.verdict != EchoConfirmed ==>
              (Recognised(d.entries, m, registryTitle, d.at)
               <==> !Forgets(entries, m, registryTitle) || FoundByDedupeKey(entries, m, d.at))
  {
    var entries := Run([], ops);
    RunKeeps([], ops);
    AuthorityIsSound(entries);
    if Deliver(entries, m, registryTitle).verdict != EchoConfirmed { RedeliveryIff(entries, m, registryTitle); }
  }

  /** A ledger of one entry with twenty ids is reached by one delivery, and the next message makes it forget
      its own id. */
  lemma ForgottenReachable() returns (ops: seq<Op>, m: Message)
    ensures AllProper(ops) && Proper(Incoming(m, "")) && m.dedupeKey == "" && !m.isSelf && |Run([], ops)| == 1
    ensures FindById(Run([], ops), m.id) == Some(0) && Forgets(Run([], ops), m, "")
  {
    var ids, y, z := TwentyIds();
    var first: Message;
    first, m := TwoMessages(ids, y, z);
    ops := OneDelivery(first);
    var e := NewEntry(first, "", 1);
    AllAliases(first, ids);
    FirstAndAll(e, ids);
    ForgetsNews(e, m, ids, y, z);
  }

  lemma TwoMessages(ids: seq<string>, y: string, z: string) returns (first: Message, m: Message)
    requires |ids| > 1
    ensures first.id == ids[0] && first.others == ids[1..] && first.links == [] && first.facts != m.facts
    ensures first.dedupeKey == "" && !first.isSelf
    ensures m.id == ids[1] && m.others == [y, z] && m.links == [] && m.dedupeKey == "" && !m.isSelf
  {
    first := Message(ids[0], ids[1..], "", false, "", "", [], [], "");
    m := Message(ids[1], [y, z], "", false, "", "", [], [], "news");
  }

  lemma OneDelivery(m: Message) returns (ops: seq<Op>)
    requires !m.isSelf && m.dedupeKey == "" && Proper(Incoming(m, ""))
    ensures AllProper(ops) && Run([], ops) == [NewEntry(m, "", 1)]
  {
    OnlyMessage(m);
    ops := [Incoming(m, "")];
    assert ops[..|ops| - 1] == [];
  }

  ghost predicate PlainIds(ids: seq<string>) {
    && |ids| == ID_LIMIT
    && (forall i | 0 <= i < |ids| :: Plain(ids[i]))
    && (forall i, j | 0 <= i < j < |ids| :: ids[i] != ids[j])
  }

  lemma AllAliases(m: Message, ids: seq<string>)
    requires PlainIds(ids) && m.id == ids[0] && m.others == ids[1..]
    ensures Aliases(m) == ids
  {
    assert [m.id] + m.others == ids;
    ExpandPlain(ids);
    AppendAllNew([], ids);
    assert [] + ids == ids;
  }

  /** An entry that lists its own id first. */
  lemma FirstAndAll(e: Entry, ids: seq<string>)
    requires PlainIds(ids) && e.messageId == ids[0] && e.messageIds == ids
    ensures EntryIds(e) == ids
  {
    var rest := ids[1..];
    assert AppendNew([ids[0]], ids) == AppendNew([ids[0]], rest);
    forall i | 0 <= i < |rest| ensures rest[i] != "" && rest[i] !in [ids[0]] { assert rest[i] == ids[i + 1]; }
    AppendAllNew([ids[0]], rest);
    assert [ids[0]] + rest == ids;
  }

  lemma ForgetsNews(e: Entry, m: Message, ids: seq<string>, y: string, z: string)
    requires PlainIds(ids) && EntryIds(e) == ids && e.messageId == ids[0] && m.id == ids[1] && m.others == [y, z]
    requires y !in ids && z !in ids && y != z && Plain(y) && Plain(z) && e.facts != m.facts
    ensures FindById([e], m.id) == Some(0) && Forgets([e], m, "")
  {
    IdPushedOut(e, m, ids);
    assert ids[1] in EntryIds(e);
    OnlyEntryForgets(e, m);
  }

  // ---------------------------------------------------------------- optimistic replies

  /** Same entries in the same places. */
  ghost predicate SameRows(entries: seq<Entry>, later: seq<Entry>) {
    && |entries| == |later|
    && forall i | 0 <= i < |entries| ::
         entries[i].key == later[i].key && entries[i].sequence == later[i].sequence
  }

  /** Every operation but a purge leaves the rows alone or appends with the next sequence. */
  lemma RowsOrAppend(entries: seq<Entry>, op: Op)
    requires Authority(entries) && Proper(op) && !op.Purge?
    ensures Authority(Apply(entries, op))
    ensures SameRows(entries, Apply(entries, op)) || MaxSequence(Apply(entries, op)) == NextSequence(entries)
  {
    ApplyKeeps(entries, op);
    MaxIsLast(Apply(entries, op));
    if op.Incoming? {
      IncomingExtends(entries, op.m, op.registryTitle);
      if |Apply(entries, op)| == |entries| { ExtendsSameRows(entries, Apply(entries, op)); }
    } else if !op.Reply? && !op.ReplyIfLatest? {
      TouchedExtends(entries, op);
      ExtendsSameRows(entries, TouchedAll(entries, op));
    }
  }

  lemma ExtendsSameRows(entries: seq<Entry>, later: seq<Entry>)
    requires Extends(entries, later) && |entries| == |later|
    ensures SameRows(entries, later)
  {
    forall i | 0 <= i < |entries| ensures entries[i].key == later[i].key && entries[i].sequence == later[i].sequence {
      assert Claims(entries[i], later[i]);
    }
  }

  lemma SameRowsSameMax(entries: seq<Entry>, later: seq<Entry>)
    requires Authority(entries) && Authority(later) && SameRows(entries, later)
    ensures MaxSequence(entries) == MaxSequence(later)
  {
    MaxIsLast(entries);
    MaxIsLast(later);
  }

  ghost predicate NoPurge(ops: seq<Op>) {
    forall k | 0 <= k < |ops| :: !ops[k].Purge?
  }

  lemma {:induction false} RowsOrGrown(entries: seq<Entry>, ops: seq<Op>)
    requires Authority(entries) && AllProper(ops) && NoPurge(ops)
    ensures Authority(Run(entries, ops))
    ensures SameRows(entries, Run(entries, ops)) || MaxSequence(Run(entries, ops)) > MaxSequence(entries)
  {
    if ops != [] {
      var s := Run(entries, ops[..|ops| - 1]);
      RowsOrGrown(entries, ops[..|ops| - 1]);
      RowsOrAppend(s, ops[|ops| - 1]);
      var t := Apply(s, ops[|ops| - 1]);
      if SameRows(s, t) { SameRowsSameMax(s, t); }
      if SameRows(entries, s) { SameRowsSameMax(entries, s); }
    }
  }

  /** A reply written for a snapshot, after any operations of others but a purge, is accepted if and only if
      nothing was stored in between and its source message is unanswered.  Then it gets the sequence right
      above the snapshot, and it is the only reply to its source message. */
  lemma AcceptedBehindSnapshot(snapshot: seq<Entry>, between: seq<Op>, s: seq<Entry>, r: ReplyCandidate)
    requires Authority(snapshot) && AllProper(between) && NoPurge(between) && s == Run(snapshot, between)
    ensures Accepts(s, r, MaxSequence(snapshot)) <==> SameRows(snapshot, s) && !Answered(s, r.messageId)
    ensures Accepts(s, r, MaxSequence(snapshot)) ==>
              OnlyReply(Apply(s, ReplyIfLatest(r, MaxSequence(snapshot))), r, MaxSequence(snapshot) + 1)
  {
    RowsOrGrown(snapshot, between);
    NothingBetween(snapshot, s);
    if Accepts(s, r, MaxSequence(snapshot)) { AcceptedIsLast(s, r, MaxSequence(snapshot)); }
  }

  /** The list ends with the reply under the sequence, and holds no other reply to its source message. */
  ghost predicate OnlyReply(entries: seq<Entry>, r: ReplyCandidate, sequence: int) {
    && entries != [] && entries[|entries| - 1] == NewReply(r, sequence)
    && forall i | 0 <= i < |entries| - 1 :: !(entries[i].role == Assistant && entries[i].messageId == r.messageId)
  }

  lemma NothingBetween(snapshot: seq<Entry>, s: seq<Entry>)
    requires Authority(snapshot) && Authority(s)
    requires SameRows(snapshot, s) || MaxSequence(s) > MaxSequence(snapshot)
    ensures MaxSequence(snapshot) >= 0 && (LatestIs(s, MaxSequence(snapshot)) <==> SameRows(snapshot, s))
  {
    MaxIsLast(snapshot);
    assert snapshot != [] ==> EntryOk(snapshot[|snapshot| - 1]);
    if SameRows(snapshot, s) { SameRowsSameMax(snapshot, s); }
  }

  lemma AcceptedIsLast(s: seq<Entry>, r: ReplyCandidate, expected: nat)
    requires Accepts(s, r, expected)
    ensures OnlyReply(Apply(s, ReplyIfLatest(r, expected)), r, expected + 1)
  {
    var e := NewReply(r, NextSequence(s));
    WithoutKeyExact(s, e.key);
    LastIsOnly(s, WithoutKey(s, e.key), r, expected + 1);
  }

  lemma LastIsOnly(s: seq<Entry>, rest: seq<Entry>, r: ReplyCandidate, sequence: int)
    requires !Answered(s, r.messageId) && forall x | x in rest :: x in s
    ensures OnlyReply(rest + [NewReply(r, sequence)], r, sequence)
  {
    forall i | 0 <= i < |rest|
      ensures !(rest[i].role == Assistant && rest[i].messageId == r.messageId)
    {
      assert rest[i] in s;
      var k :| 0 <= k < |s| && s[k] == rest[i];
    }
  }

  // ---------------------------------------------------------------- a purge in between

  /** How many operations stored a row. */
  ghost function Stored(entries: seq<Entry>, ops: seq<Op>): nat {
    if ops == [] then 0
    else
      var s := Run(entries, ops[..|ops| - 1]);
      Stored(entries, ops[..|ops| - 1]) + if SameRows(s, Apply(s, ops[|ops| - 1])) then 0 else 1
  }

  /** The largest sequence counts the rows stored so far. */
  lemma {:induction false} MaxCountsStored(entries: seq<Entry>, ops: seq<Op>)
    requires Authority(entries) && AllProper(ops) && NoPurge(ops)
    ensures MaxSequence(Run(entries, ops)) == MaxSequence(entries) + Stored(entries, ops)
  {
    if ops != [] {
      var before := ops[..|ops| - 1];
      MaxCountsStored(entries, before);
      RunKeeps(entries, before);
      var s := Run(entries, before);
      RowsOrAppend(s, ops[|ops| - 1]);
      if SameRows(s, Apply(s, ops[|ops| - 1])) { SameRowsSameMax(s, Apply(s, ops[|ops| - 1])); }
    }
  }

  lemma LastPurges(entries: seq<Entry>, ops: seq<Op>)
    requires ops != [] && ops[|ops| - 1].Purge?
    ensures Run(entries, ops) == []
  {
  }

  /** Two runs that go on alike. */
  lemma SameLast(entries: seq<Entry>, ops: seq<Op>, entries': seq<Entry>, ops': seq<Op>)
    requires ops != [] && ops' != [] && ops[|ops| - 1] == ops'[|ops'| - 1]
    requires Run(entries, ops[..|ops| - 1]) == Run(entries', ops'[..|ops'| - 1])
    ensures Run(entries, ops) == Run(entries', ops')
  {
  }

  lemma SuffixWithoutLast(ops: seq<Op>, k: nat)
    requires k < |ops| - 1
    ensures var rest := ops[k + 1..];
            rest[|rest| - 1] == ops[|ops| - 1] && rest[..|rest| - 1] == ops[..|ops| - 1][k + 1..]
  {
  }

  /** What was there before a purge is forgotten. */
  lemma {:induction false} RunAfterPurge(entries: seq<Entry>, ops: seq<Op>, k: nat)
    requires k < |ops| && ops[k].Purge?
    ensures Run(entries, ops) == Run([], ops[k + 1..])
    decreases |ops|
  {
    if k == |ops| - 1 {
      LastPurges(entries, ops);
      NothingRun(ops[k + 1..]);
    } else {
      RunAfterPurge(entries, ops[..|ops| - 1], k);
      SuffixWithoutLast(ops, k);
      SameLast(entries, ops, [], ops[k + 1..]);
    }
  }

  lemma NothingRun(ops: seq<Op>)
    requires ops == []
    ensures Run([], ops) == []
  {
  }

  /** Behind a purge, a reply written for an older snapshot is accepted if and only if exactly as many rows
      were stored since the last purge as the snapshot had sequences, and its source message is unanswered. */
  lemma AcceptedBehindPurge(snapshot: seq<Entry>, between: seq<Op>, k: nat, s: seq<Entry>, r: ReplyCandidate)
    requires Authority(snapshot) && AllProper(between) && s == Run(snapshot, between)
    requires k < |between| && between[k].Purge? && NoPurge(between[k + 1..])
    ensures Accepts(s, r, MaxSequence(snapshot))
            <==> Stored([], between[k + 1..]) == MaxSequence(snapshot) && !Answered(s, r.messageId)
  {
    RunAfterPurge(snapshot, between, k);
    MaxCountsStored([], between[k + 1..]);
    MaxIsLast(snapshot);
    assert snapshot != [] ==> EntryOk(snapshot[|snapshot| - 1]);
  }

  /** After a purge the sequences start again, and a reply to what is gone can be accepted: its snapshot
      and the new ledger have the same length of history. */
  lemma PurgeHidesChange(first: Message, second: Message, r: ReplyCandidate)
    requires Proper(Incoming(first, "")) && Proper(Incoming(second, "")) && first.id != second.id && LinksAgree(r.links)
    ensures var snapshot := Apply([], Incoming(first, "")); var s := Run(snapshot, [Purge, Incoming(second, "")]);
            Accepts(s, r, MaxSequence(snapshot)) && !SameRows(snapshot, s)
  {
    var snapshot := Apply([], Incoming(first, ""));
    OnlyMessage(first);
    OnlyMessage(second);
    PurgedThen(snapshot, [Purge, Incoming(second, "")]);
    assert snapshot[0].key == first.id;
  }

  lemma PurgedThen(entries: seq<Entry>, ops: seq<Op>)
    requires |ops| == 2 && ops[0].Purge?
    ensures Run(entries, ops) == Apply([], ops[1])
  {
    LastPurges(entries, ops[..1]);
    assert ops[..|ops| - 1] == ops[..1];
  }

  lemma OnlyMessage(m: Message)
    ensures var s := Apply([], Incoming(m, ""));
            s == [NewEntry(m, "", 1)] && MaxSequence(s) == 1 && forall id :: !Answered(s, id)
  {
    var e := NewEntry(m, "", 1);
    assert [] + [e] == [e];
    assert MaxSequence([e][..0]) == 0;
  }
}
