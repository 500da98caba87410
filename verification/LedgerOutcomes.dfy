/** What every operation on a conversation's ledger does to its entries, field by field, and what follows over
    runs: a recalled message is never shown again. */
module LedgerOutcomes {
  import opened Wrappers
  import opened LedgerEntries
  import opened LedgerIdentity
  import opened Redelivery
  import opened LedgerRuns
  import opened LedgerClaims
  import opened LedgerStore

  // ---------------------------------------------------------------- deliveries

  /** A link of the message as it is stored: as it is, unless its address was known; then with what was known
      of it and the new address text, if there is one. */
  ghost predicate LinkTaken(l: Link, u: Link, had: seq<Link>) {
    if forall p | p in had :: !SameAddress(p, l) then u == l
    else && (l.url != "" ==> u.url == l.url)
         && exists p | p in had ::
              SameAddress(p, l) && u.(url := p.url) == p && (l.url == "" ==> u.url == p.url)
  }

  lemma LinkIsTaken(l: Link, had: seq<Link>)
    ensures LinkTaken(l, Refreshed(l, had), had)
  {
    forall p | p in had ensures SameAddress(p, l) <==> LinkKey(p) == LinkKey(l) != "" { KeyExactly(p, l); }
    if LinkKey(l) != "" && LastWith(had, LinkKey(l)).Some? {
      var p := LastWith(had, LinkKey(l)).value;
      assert p in had && Refreshed(l, had).(url := p.url) == p;
    }
  }

  /** The message's own part of an entry: role, facts, dedupe key and content.  What follows its blocks are
      annotations that were there before, and its links come first. */
  ghost predicate Carries(u: Entry, m: Message, e: Entry) {
    && u.role == (if m.isSelf then Self else User) && u.facts == m.facts && u.dedupeKey == m.dedupeKey
    && m.blocks <= u.blocks
    && (forall b | b in u.blocks[|m.blocks|..] :: b in e.blocks && "annotation:" <= b.kind)
    && |m.links| <= |u.links| && (forall i | 0 <= i < |m.links| :: LinkTaken(m.links[i], u.links[i], e.links))
    && (forall l | l in u.links[|m.links|..] :: l in e.links)
  }

  /** A human title gives way to no other, and the message's own, if human, is taken. */
  ghost predicate Titled(u: Entry, m: Message, registryTitle: string, had: string) {
    && (!Placeholder(m.title) ==> u.title == m.title)
    && (!Placeholder(had) ==> !Placeholder(u.title))
    && u.title in [had, registryTitle, m.title]
    && (m.title == "" && registryTitle == "" ==> u.title == had)
    && (u.title == "" ==> had == "" && m.title == "" && registryTitle == "")
  }

  lemma TitleTaken(had: string, registryTitle: string, title: string)
    ensures var t := PreferredTitle(had, PreferredTitle(registryTitle, title));
            && (!Placeholder(title) ==> t == title) && (!Placeholder(had) ==> !Placeholder(t))
            && t in [had, registryTitle, title]
            && (title == "" && registryTitle == "" ==> t == had)
            && (t == "" ==> had == "" && title == "" && registryTitle == "")
  {
    HumanExactly(had);
    HumanExactly(registryTitle);
    HumanExactly(title);
  }

  lemma {:induction false} KeptAreAnnotations(seen: set<(string, string)>, existing: seq<Block>)
    ensures forall b | b in KeptBlocks(seen, existing) :: b in existing && "annotation:" <= b.kind
    decreases |existing|
  {
    if existing != [] {
      assert existing == [existing[0]] + existing[1..];
      KeptAreAnnotations(seen, existing[1..]);
      KeptAreAnnotations(seen + {Identity(existing[0])}, existing[1..]);
    }
  }

  lemma {:induction false} KeptLinksAreOld(seen: set<string>, prior: seq<Link>)
    ensures forall l | l in KeptLinks(seen, prior) :: l in prior
    decreases |prior|
  {
    if prior != [] {
      assert prior == [prior[0]] + prior[1..];
      KeptLinksAreOld(seen, prior[1..]);
      KeptLinksAreOld(seen + {LinkKey(prior[0])}, prior[1..]);
    }
  }

  lemma LinksTaken(found: seq<Link>, had: seq<Link>)
    ensures var r := MergeLinks(found, had);
            && |found| <= |r| && (forall i | 0 <= i < |found| :: LinkTaken(found[i], r[i], had))
            && (forall l | l in r[|found|..] :: l in had)
  {
    KeptLinksAreOld(Keys(found), had);
    var r := MergeLinks(found, had);
    assert r[|found|..] == KeptLinks(Keys(found), had);
    forall i | 0 <= i < |found| ensures LinkTaken(found[i], r[i], had) { LinkIsTaken(found[i], had); }
  }

  lemma BlocksTaken(candidate: seq<Block>, had: seq<Block>)
    ensures var r := MergeBlocks(candidate, had);
            candidate <= r && forall b | b in r[|candidate|..] :: b in had && "annotation:" <= b.kind
  {
    KeptAreAnnotations(Identities(candidate), had);
    assert MergeBlocks(candidate, had)[|candidate|..] == KeptBlocks(Identities(candidate), had);
  }

  lemma MergeCarries(e: Entry, m: Message, registryTitle: string)
    ensures Carries(Merge(e, m, registryTitle), m, e)
  {
    BlocksTaken(m.blocks, e.blocks);
    LinksTaken(m.links, e.links);
  }

  /** Of all ids of the entry and the message an entry keeps the last twenty. */
  lemma IdsMergedExactly(e: Entry, m: Message)
    ensures var all := AppendNew(EntryIds(e), Expand(Aliases(m)));
            && (forall x :: x in all <==> Knows(e, x) || exists t | t in Aliases(m) :: FormOf(t, x))
            && |MergedIds(e, m)| == (if |all| <= 20 then |all| else 20)
            && MergedIds(e, m) == all[|all| - |MergedIds(e, m)|..]
  {
    EntryIdsExact(e);
    AppendNewExact(EntryIds(e), Expand(Aliases(m)));
    ExpandExactly(Aliases(m));
  }

  /** What a message makes of an entry it was found to belong to: its place, its send record and its status stay,
      a blank status becomes active, and the rest is the message's. */
  ghost predicate Renewed(e: Entry, u: Entry, m: Message, registryTitle: string) {
    && u.sequence == e.sequence && u.key == (if e.key != "" then e.key else m.id)
    && u.messageId == (if e.messageId != "" then e.messageId else m.id) && u.messageIds == MergedIds(e, m)
    && u.status == (if e.status != "" then e.status else "active") && u.send == e.send
    && Carries(u, m, e) && Titled(u, m, registryTitle, e.title)
  }

  lemma MergeRenews(e: Entry, m: Message, registryTitle: string)
    ensures Renewed(e, Merge(e, m, registryTitle), m, registryTitle)
  {
    MergeCarries(e, m, registryTitle);
    TitleTaken(e.title, registryTitle, m.title);
  }

  /** A new entry: the message under its own id, active, not sent. */
  ghost predicate Stored(u: Entry, m: Message, registryTitle: string, sequence: int) {
    && u.key == u.messageId == m.id && u.messageIds == Aliases(m) && u.sequence == sequence && u.status == "active"
    && u.send == Send("", "", "") && u.blocks == m.blocks && u.links == m.links
    && u.role == (if m.isSelf then Self else User) && u.facts == m.facts && u.dedupeKey == m.dedupeKey
    && Titled(u, m, registryTitle, "")
  }

  lemma NewEntryStores(m: Message, registryTitle: string, sequence: int)
    ensures Stored(NewEntry(m, registryTitle, sequence), m, registryTitle, sequence)
  {
    TitleTaken("", registryTitle, m.title);
  }

  /** Everything but the ids is the same. */
  predicate SameContent(e: Entry, u: Entry) {
    && e.dedupeKey == u.dedupeKey && e.role == u.role && e.status == u.status && e.title == u.title
    && e.blocks == u.blocks && e.links == u.links && e.send == u.send && e.facts == u.facts
  }

  ghost predicate Knows(e: Entry, id: string) {
    id != "" && (e.messageId == id || id in e.messageIds)
  }

  /** Where a delivery goes: to the first entry that knows the message's id; else, for one's own text, to the last
      of the latest forty that it can be an echo of; else to the first pulled one with its dedupe key. */
  ghost predicate GoesTo(entries: seq<Entry>, m: Message, at: nat, echo: bool) {
    && at < |entries|
    && if exists k | 0 <= k < |entries| :: Knows(entries[k], m.id)
       then !echo && Knows(entries[at], m.id) && forall k | 0 <= k < at :: !Knows(entries[k], m.id)
       else if EchoInSight(entries, m)
       then echo && |entries| - 40 <= at && EchoMatches(entries[at], m)
            && forall k | at < k < |entries| :: !EchoMatches(entries[k], m)
       else !echo && m.dedupeKey != "" && Pulled(entries[at], m.dedupeKey)
            && forall k | 0 <= k < at :: !Pulled(entries[k], m.dedupeKey)
  }

  predicate Pulled(e: Entry, dedupeKey: string) {
    e.role != Assistant && e.dedupeKey == dedupeKey
  }

  ghost predicate EchoInSight(entries: seq<Entry>, m: Message) {
    m.isSelf && m.text != "" && exists k | 0 <= k < |entries| && |entries| - 40 <= k :: EchoMatches(entries[k], m)
  }

  lemma FoundByIdExactly(entries: seq<Entry>, id: string)
    ensures var r := FindById(entries, id);
            && (r.Some? ==> r.value < |entries| && Knows(entries[r.value], id)
                            && forall k | 0 <= k < r.value :: !Knows(entries[k], id))
            && (r.None? ==> forall k | 0 <= k < |entries| :: !Knows(entries[k], id))
  {
    forall k | 0 <= k < |entries| ensures id in EntryIds(entries[k]) <==> Knows(entries[k], id) {
      EntryIdsExact(entries[k]);
    }
  }

  lemma EchoFoundExactly(entries: seq<Entry>, m: Message)
    ensures var r := FindEcho(entries, m);
            && (r.Some? <==> EchoInSight(entries, m))
            && (r.Some? ==> r.value < |entries| && |entries| - 40 <= r.value && EchoMatches(entries[r.value], m)
                            && forall k | r.value < k < |entries| :: !EchoMatches(entries[k], m))
  {
  }

  lemma DedupeFoundExactly(entries: seq<Entry>, dedupeKey: string)
    ensures var r := FindByDedupe(entries, dedupeKey);
            && (r.Some? ==> dedupeKey != "" && r.value < |entries| && Pulled(entries[r.value], dedupeKey)
                            && forall k | 0 <= k < r.value :: !Pulled(entries[k], dedupeKey))
            && (r.None? ==> dedupeKey == "" || forall k | 0 <= k < |entries| :: !Pulled(entries[k], dedupeKey))
  {
  }

  lemma GoesToExactly(entries: seq<Entry>, m: Message, registryTitle: string)
    ensures var d := Deliver(entries, m, registryTitle);
            && (d.verdict != Created ==> GoesTo(entries, m, d.at, d.verdict == EchoConfirmed))
            && (d.verdict == Created ==> forall at, echo :: !GoesTo(entries, m, at, echo))
  {
    FoundByIdExactly(entries, m.id);
    EchoFoundExactly(entries, m);
    DedupeFoundExactly(entries, m.dedupeKey);
  }

  lemma ContentExactly(e: Entry, u: Entry)
    ensures Changed(e, u) <==> !SameContent(e, u)
  {
  }

  /** Everything a delivery does: one entry renewed, claimed, or stored behind the others, or nothing at all. */
  lemma DeliveredExactly(entries: seq<Entry>, m: Message, registryTitle: string)
    requires Sound(entries)
    ensures var d := Deliver(entries, m, registryTitle);
            && |d.entries| == |entries| + (if d.verdict == Created then 1 else 0)
            && (forall i | 0 <= i < |entries| && (i != d.at || d.verdict in {Duplicate, Created}) ::
                  d.entries[i] == entries[i])
            && (d.verdict == Updated ==>
                  && Renewed(entries[d.at], d.entries[d.at], m, registryTitle)
                  && !SameContent(entries[d.at], d.entries[d.at]))
            && (d.verdict == Duplicate ==>
                  exists u :: Renewed(entries[d.at], u, m, registryTitle) && SameContent(entries[d.at], u))
            && (d.verdict == EchoConfirmed ==>
                  d.entries[d.at] == entries[d.at].(send := Send("sent", m.id, entries[d.at].send.rest)))
            && (d.verdict == Created ==>
                  d.at == |entries| && Stored(d.entries[d.at], m, registryTitle, NextSequence(entries)))
  {
    VerdictCases(entries, m, registryTitle);
    DeliveryHasShape(entries, m, registryTitle);
    var d := Deliver(entries, m, registryTitle);
    if d.verdict in {Updated, Duplicate} {
      MergeRenews(entries[d.at], m, registryTitle);
      ContentExactly(entries[d.at], Merge(entries[d.at], m, registryTitle));
    }
    if d.verdict == Created { NewEntryStores(m, registryTitle, NextSequence(entries)); }
  }

  // ---------------------------------------------------------------- operations in place

  /** Which entries an operation is for, and so whether it reports a change. */
  lemma HitsExactly(op: Op, e: Entry)
    requires InPlaceOp(op)
    ensures op.Recall? ==> (Hits(op, e) <==> Knows(e, op.id) && e.status == "active")
    ensures op.AnnotateLink? || op.AnnotateEntry? ==> (Hits(op, e) <==> e.key == op.key)
    ensures op.BridgeResult? ==> (Hits(op, e) <==> e.role == Assistant && e.key in op.keys)
    ensures op.SendResult? ==>
              (Hits(op, e) <==> && e.key == op.key
                                && (e.send.status in ["sent", "accepted", "failed"] ==>
                                      op.status !in ["", "pending", "queued_for_confirm", "queued_to_bridge"]))
  {
    EntryIdsExact(e);
  }

  /** Exactly the entries the condition names are changed, by the given change. */
  ghost predicate ChangedWhere(entries: seq<Entry>, later: seq<Entry>, hit: Entry -> bool, change: Entry -> Entry) {
    |later| == |entries|
    && forall i | 0 <= i < |entries| :: later[i] == if hit(entries[i]) then change(entries[i]) else entries[i]
  }

  /** A recall takes every active entry that knows the id out of sight, and changes nothing else. */
  lemma RecallHides(entries: seq<Entry>, id: string)
    ensures var later := Apply(entries, Recall(id));
            && ChangedWhere(entries, later, (e: Entry) => Knows(e, id) && e.status == "active",
                            (e: Entry) => e.(status := "recalled"))
            && forall e | e in Active(later) :: !Knows(e, id)
  {
    var later := Apply(entries, Recall(id));
    forall i | 0 <= i < |entries|
      ensures later[i] == if Knows(entries[i], id) && entries[i].status == "active"
                          then entries[i].(status := "recalled") else entries[i]
    {
      EntryIdsExact(entries[i]);
    }
  }

  /** A send result is what is read afterwards, unless it would take back a result that came in. */
  lemma SendResultIsRead(entries: seq<Entry>, key: string, status: string, rest: string)
    ensures ChangedWhere(entries, Apply(entries, SendResult(key, status, rest)),
              (e: Entry) =>
                && e.key == key
                && !(e.send.status in ["sent", "accepted", "failed"]
                     && status in ["", "pending", "queued_for_confirm", "queued_to_bridge"]),
              (e: Entry) => e.(send := Send(status, e.send.echoId, rest)))
  {
  }

  /** A bridge result is written to the replies it is for. */
  lemma BridgeResultIsRead(entries: seq<Entry>, keys: set<string>, status: string, rest: string)
    ensures ChangedWhere(entries, Apply(entries, BridgeResult(keys, status, rest)),
              (e: Entry) => e.role == Assistant && e.key in keys,
              (e: Entry) => e.(send := Send(status, e.send.echoId, rest)))
  {
  }

  /** The block is there, every other block is where it was, except that it takes the place of those of its kind
      and source. */
  ghost predicate BlockPut(had: seq<Block>, blocks: seq<Block>, b: Block) {
    && b in blocks && |had| <= |blocks|
    && (forall i | 0 <= i < |had| ::
          blocks[i] == if had[i].kind == b.kind && had[i].sourceRef == b.sourceRef then b else had[i])
    && (if exists c | c in had :: c.kind == b.kind && c.sourceRef == b.sourceRef then |blocks| == |had|
        else blocks == had + [b])
  }

  lemma UpsertPuts(had: seq<Block>, b: Block)
    ensures BlockPut(had, UpsertBlock(had, b), b)
  {
    if c :| c in had && SamePlace(c, b) {
      var i :| 0 <= i < |had| && had[i] == c;
      assert UpsertBlock(had, b)[i] == b;
    }
  }

  /** An annotation is there afterwards and no other block is lost. */
  lemma AnnotationIsThere(entries: seq<Entry>, key: string, block: Block)
    ensures var later := Apply(entries, AnnotateEntry(key, block));
            && |later| == |entries|
            && forall i | 0 <= i < |entries| ::
                 if entries[i].key != key then later[i] == entries[i]
                 else && later[i] == entries[i].(blocks := later[i].blocks)
                      && BlockPut(entries[i].blocks, later[i].blocks, block)
  {
    forall i | 0 <= i < |entries| { UpsertPuts(entries[i].blocks, block); }
  }

  /** Every link with the id shows the new status and note, all others are as they were; an unknown id is added. */
  ghost predicate LinkNoted(had: seq<Link>, links: seq<Link>, urlId: string, status: string, note: string) {
    && |had| <= |links|
    && (forall i | 0 <= i < |had| ::
          links[i] == if had[i].urlId == urlId then Link(urlId, had[i].url, status, note) else had[i])
    && (if exists l | l in had :: l.urlId == urlId then |links| == |had|
        else links == had + [Link(urlId, "", status, note)])
  }

  lemma AnnotatedAreNoted(had: seq<Link>, urlId: string, status: string, note: string)
    ensures LinkNoted(had, AnnotatedLinks(had, urlId, status, note), urlId, status, note)
  {
  }

  /** What a link annotation does to its entry: the link shows it, and evidence of a completed one is there as
      a block. */
  ghost predicate LinkAnnotated(e: Entry, u: Entry, urlId: string, status: string, note: string,
                                evidence: Option<Block>) {
    && u == e.(links := u.links, blocks := u.blocks) && LinkNoted(e.links, u.links, urlId, status, note)
    && if evidence.Some? && status == "completed" then BlockPut(e.blocks, u.blocks, evidence.value)
       else u.blocks == e.blocks
  }

  lemma TouchedLink(e: Entry, urlId: string, status: string, note: string, evidence: Option<Block>)
    ensures LinkAnnotated(e, Touched(AnnotateLink(e.key, urlId, status, note, evidence), e),
                          urlId, status, note, evidence)
  {
    AnnotatedAreNoted(e.links, urlId, status, note);
    if evidence.Some? { UpsertPuts(e.blocks, evidence.value); }
  }

  lemma LinkAnnotationIsThere(entries: seq<Entry>, op: Op)
    requires op.AnnotateLink?
    ensures var later := Apply(entries, op);
            && |later| == |entries|
            && forall i | 0 <= i < |entries| ::
                 if entries[i].key != op.key then later[i] == entries[i]
                 else LinkAnnotated(entries[i], later[i], op.urlId, op.status, op.note, op.evidence)
  {
    var later := Apply(entries, op);
    forall i | 0 <= i < |entries|
      ensures if entries[i].key != op.key then later[i] == entries[i]
              else LinkAnnotated(entries[i], later[i], op.urlId, op.status, op.note, op.evidence)
    {
      TouchedLink(entries[i], op.urlId, op.status, op.note, op.evidence);
    }
  }

  /** A reply is stored behind all other entries: active, a candidate for sending, with what was written. */
  lemma ReplyIsStored(entries: seq<Entry>, r: ReplyCandidate, key: string)
    requires Authority(entries) && Proper(Reply(r)) && key == "reply:" + r.messageId + ":" + r.createdAt
    ensures Apply(entries, Reply(r)) != []
    ensures var later := Apply(entries, Reply(r)); var u := later[|later| - 1];
            && (forall e | e in entries && e.key != key :: e in later[..|later| - 1])
            && (forall e | e in later[..|later| - 1] :: e in entries && e.sequence < u.sequence)
            && u == Entry(key, r.messageId, [r.messageId], "", u.sequence, Assistant, "active", r.title,
                          r.blocks, r.links, Send("candidate", "", ""), r.facts)
  {
    var e := NewReply(r, NextSequence(entries));
    WithoutKeyExact(entries, e.key);
    forall x | x in entries ensures x.sequence < e.sequence { BelowNext(entries, x); }
  }

  /** The next sequence is one above the largest, whatever the order of the list, and at least one. */
  lemma {:induction false} NextExactly(entries: seq<Entry>)
    ensures NextSequence(entries) >= 1 && forall e | e in entries :: e.sequence < NextSequence(entries)
    ensures NextSequence(entries) == 1 || exists e | e in entries :: e.sequence + 1 == NextSequence(entries)
  {
    if entries != [] {
      var front, last := entries[..|entries| - 1], entries[|entries| - 1];
      NextExactly(front);
      assert entries == front + [last];
      assert last in entries;
    }
  }

  /** The expected tail of a ledger: nothing at all, if no sequence is expected, and else its last entry. */
  lemma LatestExactly(entries: seq<Entry>, expected: int)
    requires Authority(entries)
    ensures LatestIs(entries, expected)
            <==> if expected <= 0 then entries == [] else entries != [] && entries[|entries| - 1].sequence == expected
  {
    MaxIsLast(entries);
    assert entries != [] ==> EntryOk(entries[|entries| - 1]);
  }

  // ---------------------------------------------------------------- recalled for good

  /** Until a purge a recalled entry keeps its place and is not shown, whatever is delivered, answered, annotated
      or reported. */
  lemma RecalledIsNeverShown(entries: seq<Entry>, ops: seq<Op>, i: nat)
    requires Authority(entries) && AllFresh(entries, ops) && i < |entries| && entries[i].status == "recalled"
    ensures var later := Run(entries, ops);
            && i < |later| && later[i].key == entries[i].key && later[i].status == "recalled"
            && forall e | e in Active(later) :: e.key != entries[i].key
  {
    ClaimsAreWriteOnce(entries, ops);
    var later := Run(entries, ops);
    assert Claims(entries[i], later[i]);
    HiddenByStatus(later, i);
  }

  lemma KeysApart(entries: seq<Entry>, i: nat, k: nat)
    requires KeysDistinct(entries) && i < |entries| && k < |entries| && i != k
    ensures entries[i].key != entries[k].key
  {
  }

  lemma HiddenByStatus(entries: seq<Entry>, i: nat)
    requires Authority(entries) && i < |entries| && entries[i].status != "active"
    ensures forall e | e in Active(entries) :: e.key != entries[i].key
  {
    AuthorityIsSound(entries);
    forall e | e in Active(entries) ensures e.key != entries[i].key {
      var k :| 0 <= k < |entries| && entries[k] == e;
      KeysApart(entries, i, k);
    }
  }
}
