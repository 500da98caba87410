/** The conversation ledger store: the database is the authority, `messages.jsonl` and the markdown file
    are projections of it that are rewritten after it, and a process can die between any two writes. */
module LedgerStore {
  import opened LedgerEntries
  import opened LedgerMerge
  import opened LedgerRuns
  import opened LedgerDatabase

  lemma AuthorityIsStorable(entries: seq<Entry>)
    requires Authority(entries)
    ensures Storable(entries) && InOrder(entries)
  {
    AuthorityIsSound(entries);
    forall i, j | 0 <= i < j < |entries|
      ensures entries[i].sequence < entries[j].sequence
    {
      assert Precedes(entries[i], entries[j]);
    }
  }

  /** The database accepts what is appended, and lists it last. */
  lemma AppendIsListed(rows: seq<Row>, conversation: string, e: Entry)
    requires Constrained(rows) && Authority(Listed(rows, conversation))
    requires Authority(Appended(Listed(rows, conversation), e))
    requires e.sequence == NextSequence(Listed(rows, conversation))
    ensures !Taken(rows, conversation, e)
    ensures Listed(WithRow(rows, conversation, e), conversation) == Appended(Listed(rows, conversation), e)
  {
    var entries := Listed(rows, conversation);
    ListedExact(rows, conversation);
    forall i | 0 <= i < |rows| && rows[i].conversation == conversation ensures rows[i].entry.sequence < e.sequence {
      assert Row(conversation, rows[i].entry) in rows;
      BelowNext(entries, rows[i].entry);
    }
    UpsertListed(rows, conversation, e, conversation);
    WithoutKeyExact(entries, e.key);
    AuthorityIsStorable(Appended(entries, e));
    OrderedUnique(Listed(WithRow(rows, conversation, e), conversation), Appended(entries, e));
  }

  ghost predicate AllAuthority(rows: seq<Row>) {
    forall c :: Authority(Listed(rows, c))
  }

  lemma AuthorityKept(rows: seq<Row>, rows': seq<Row>, conversation: string)
    requires AllAuthority(rows) && Authority(Listed(rows', conversation))
    requires forall c | c != conversation :: Listed(rows', c) == Listed(rows, c)
    ensures AllAuthority(rows')
  {
    forall c ensures Authority(Listed(rows', c)) { assert Authority(Listed(rows, c)); }
  }

  lemma OneAuthority(rows: seq<Row>, conversation: string)
    requires AllAuthority(rows)
    ensures Authority(Listed(rows, conversation))
  {
  }

  // ---------------------------------------------------------------- projections

  type Files = map<string, seq<Entry>>

  /** The projections are there exactly when there is something to show, and show the authority. */
  predicate Shown(entries: seq<Entry>, messages: Files, markdown: Files, conversation: string) {
    if entries == [] then conversation !in messages && conversation !in markdown
    else && conversation in messages && messages[conversation] == entries
         && conversation in markdown && markdown[conversation] == entries
  }

  /** All conversations but the crashed ones are shown as they are. */
  ghost predicate Mirrored(rows: seq<Row>, messages: Files, markdown: Files, crashed: set<string>) {
    forall c | c !in crashed :: Shown(Listed(rows, c), messages, markdown, c)
  }

  function Written(files: Files, conversation: string, entries: seq<Entry>, done: bool): Files {
    if done then files[conversation := entries] else files
  }

  /** Whose last operation died on the way, after one that made so many of its writes. */
  ghost function Dying(crashed: set<string>, conversation: string, completed: bool): set<string> {
    if completed then crashed - {conversation} else crashed + {conversation}
  }

  lemma WritesMirrored(rows: seq<Row>, rows': seq<Row>, messages: Files, markdown: Files, crashed: set<string>,
                       conversation: string, entries: seq<Entry>, writes: nat)
    requires Mirrored(rows, messages, markdown, crashed) && entries != [] && Listed(rows', conversation) == entries
    requires forall c | c != conversation :: Listed(rows', c) == Listed(rows, c)
    ensures Mirrored(rows', Written(messages, conversation, entries, writes >= 2),
                     Written(markdown, conversation, entries, writes >= 3),
                     Dying(crashed, conversation, writes >= 3))
  {
    forall c | c !in Dying(crashed, conversation, writes >= 3)
      ensures Shown(Listed(rows', c), Written(messages, conversation, entries, writes >= 2),
                    Written(markdown, conversation, entries, writes >= 3), c)
    {
      if c != conversation { assert Shown(Listed(rows, c), messages, markdown, c); }
    }
  }

  lemma PurgeMirrored(rows: seq<Row>, rows': seq<Row>, messages: Files, markdown: Files, crashed: set<string>,
                      conversation: string, completed: bool)
    requires Mirrored(rows, messages, markdown, crashed) && (completed ==> Listed(rows', conversation) == [])
    requires forall c | c != conversation :: Listed(rows', c) == Listed(rows, c)
    ensures Mirrored(rows', messages - {conversation}, markdown - {conversation},
                     Dying(crashed, conversation, completed))
  {
    forall c | c !in Dying(crashed, conversation, completed)
      ensures Shown(Listed(rows', c), messages - {conversation}, markdown - {conversation}, c)
    {
      if c != conversation { assert Shown(Listed(rows, c), messages, markdown, c); }
    }
  }

  lemma RestoreMirrored(rows: seq<Row>, messages: Files, messages': Files, markdown: Files, markdown': Files,
                        crashed: set<string>, conversation: string)
    requires Mirrored(rows, messages, markdown, crashed) && Listed(rows, conversation) != []
    requires messages' == Written(messages, conversation, Listed(rows, conversation), conversation !in messages)
    requires markdown' == Written(markdown, conversation, Listed(rows, conversation), conversation !in markdown)
    ensures Mirrored(rows, messages', markdown', crashed)
  {
    forall c | c !in crashed ensures Shown(Listed(rows, c), messages', markdown', c) {
      assert Shown(Listed(rows, c), messages, markdown, c);
    }
  }

  /** Does the operation rewrite the entry? */
  predicate Hits(op: Op, e: Entry) {
    match op
    case SendResult(key, status, _) =>
      e.key == key && !Downgrade(e.send.status, status)
    case BridgeResult(keys, _, _) => e.role == Assistant && e.key in keys
    case Recall(id) => id in EntryIds(e) && e.status == "active"
    case AnnotateLink(key, _, _, _, _) => e.key == key
    case AnnotateEntry(key, _) => e.key == key
    case _ => false
  }

  predicate InPlaceOp(op: Op) {
    op.SendResult? || op.BridgeResult? || op.Recall? || op.AnnotateLink? || op.AnnotateEntry?
  }

  predicate AnyHit(op: Op, entries: seq<Entry>) {
    exists i | 0 <= i < |entries| :: Hits(op, entries[i])
  }

  lemma NotHit(op: Op, e: Entry)
    requires !Hits(op, e)
    ensures Touched(op, e) == e
  {
  }

  /** The rewritten list, and whether anything was hit. */
  method TouchEntries(entries: seq<Entry>, op: Op) returns (updated: seq<Entry>, changed: bool)
    requires InPlaceOp(op)
    ensures updated == Apply(entries, op) && (changed <==> AnyHit(op, entries)) && (!changed ==> updated == entries)
  {
    changed, updated := false, [];
    for i := 0 to |entries|
      invariant |updated| == i && forall k | 0 <= k < i :: updated[k] == Touched(op, entries[k])
      invariant changed <==> exists k | 0 <= k < i :: Hits(op, entries[k])
      invariant !changed ==> updated == entries[..i]
    {
      if Hits(op, entries[i]) { changed := true; } else { NotHit(op, entries[i]); }
      updated := updated + [Touched(op, entries[i])];
    }
    assert updated == TouchedAll(entries, op);
  }

  /** A new reply can be appended, and that is what the operation does. */
  lemma ReplyReady(entries: seq<Entry>, r: ReplyCandidate, e: Entry)
    requires Authority(entries) && Proper(Reply(r)) && e == NewReply(r, NextSequence(entries))
    ensures EntryOk(e) && e.sequence == NextSequence(entries) && Authority(Appended(entries, e))
    ensures Apply(entries, Reply(r)) == Appended(entries, e)
    ensures forall expected | Accepts(entries, r, expected) ::
              Apply(entries, ReplyIfLatest(r, expected)) == Appended(entries, e)
  {
    ReplyKeeps(entries, r);
    MaxIsLast(entries);
    assert entries != [] ==> EntryOk(entries[|entries| - 1]);
  }

  /** A message that is found in no way can be appended, and that is what delivering it does. */
  lemma NewEntryReady(entries: seq<Entry>, m: Message, registryTitle: string, e: Entry)
    requires Authority(entries) && Proper(Incoming(m, registryTitle))
    requires FindById(entries, m.id).None? && FindEcho(entries, m).None? && FindByDedupe(entries, m.dedupeKey).None?
    requires e == NewEntry(m, registryTitle, NextSequence(entries))
    ensures EntryOk(e) && e.sequence == NextSequence(entries) && Authority(Appended(entries, e))
    ensures var d := Deliver(entries, m, registryTitle); d.verdict == Created && d.entries == Appended(entries, e)
  {
    ApplyKeeps(entries, Incoming(m, registryTitle));
    NobodyListed(entries, m);
    WithoutKeyExact(entries, e.key);
    MaxIsLast(entries);
    assert entries != [] ==> EntryOk(entries[|entries| - 1]);
  }

  /** The entries that are still active, in order. */
  function Active(entries: seq<Entry>): (r: seq<Entry>)
    ensures forall e :: e in r <==> e in entries && e.status == "active"
    ensures InOrder(entries) ==> InOrder(r)
  {
    if entries == [] then []
    else
      var front, last := entries[..|entries| - 1], entries[|entries| - 1];
      assert entries == front + [last];
      if last.status == "active" then Active(front) + [last] else Active(front)
  }

  class ConversationLedgerStore {
    const db: ConversationLedgerDatabase
    var messages: Files
    var markdown: Files
    ghost var crashed: set<string>

    constructor ()
      ensures Valid() && fresh(db) && db.rows == [] && messages == map[] && markdown == map[] && crashed == {}
    {
      db := new ConversationLedgerDatabase();
      messages, markdown, crashed := map[], map[], {};
    }

    ghost function Entries(conversation: string): seq<Entry>
      reads db
    {
      Listed(db.rows, conversation)
    }

    /** Every list is an authority list, and every conversation whose last operation did not die on the
        way is shown by both projections. */
    ghost predicate Valid()
      reads this, db
    {
      && db.Valid() && AllAuthority(db.rows)
      && Mirrored(db.rows, messages, markdown, crashed)
    }

    ghost predicate OthersKept(before: seq<Row>, conversation: string)
      reads db
    {
      forall c | c != conversation :: Listed(db.rows, c) == Listed(before, c)
    }

    /** Rewrite the projections, unless the process dies first: `writes` counts the writes it still makes,
        the database's included. */
    method Project(conversation: string, entries: seq<Entry>, writes: nat)
      modifies this`messages, this`markdown
      ensures messages == Written(old(messages), conversation, entries, writes >= 2)
      ensures markdown == Written(old(markdown), conversation, entries, writes >= 3)
    {
      if writes >= 2 { messages := messages[conversation := entries]; }
      if writes >= 3 { markdown := markdown[conversation := entries]; }
    }

    method AppendEntry(conversation: string, e: Entry, writes: nat)
      requires Valid() && conversation != "" && EntryOk(e) && e.sequence == NextSequence(Entries(conversation))
      requires Authority(Appended(Entries(conversation), e))
      modifies this`messages, this`markdown, this`crashed, db
      ensures Valid() && OthersKept(old(db.rows), conversation)
      ensures Entries(conversation) == if writes >= 1 then Appended(old(Entries(conversation)), e)
                                       else old(Entries(conversation))
      ensures crashed == if writes == 0 then old(crashed) else Dying(old(crashed), conversation, writes >= 3)
      ensures messages == Written(old(messages), conversation, Entries(conversation), writes >= 2)
      ensures markdown == Written(old(markdown), conversation, Entries(conversation), writes >= 3)
    {
      if writes == 0 { return; }
      ghost var before := db.rows;
      AppendIsAllowed(before, conversation, e);
      var ok := db.UpsertEntry(conversation, e);
      AppendIsStored(before, db.rows, conversation, e);
      var entries := db.ListEntries(conversation);
      WritesMirrored(before, db.rows, messages, markdown, crashed, conversation, entries, writes);
      Project(conversation, entries, writes);
      crashed := Dying(crashed, conversation, writes >= 3);
    }

    method RewriteEntries(conversation: string, entries: seq<Entry>, writes: nat)
      requires Valid() && conversation != "" && Authority(entries) && entries != []
      modifies this`messages, this`markdown, this`crashed, db
      ensures Valid() && OthersKept(old(db.rows), conversation)
      ensures Entries(conversation) == if writes >= 1 then entries else old(Entries(conversation))
      ensures crashed == if writes == 0 then old(crashed) else Dying(old(crashed), conversation, writes >= 3)
      ensures messages == Written(old(messages), conversation, Entries(conversation), writes >= 2)
      ensures markdown == Written(old(markdown), conversation, Entries(conversation), writes >= 3)
    {
      if writes == 0 { return; }
      AuthorityIsStorable(entries);
      ghost var before := db.rows;
      var ok := db.ReplaceEntries(conversation, entries);
      AuthorityKept(before, db.rows, conversation);
      WritesMirrored(before, db.rows, messages, markdown, crashed, conversation, entries, writes);
      Project(conversation, entries, writes);
      crashed := Dying(crashed, conversation, writes >= 3);
    }

    // -------------------------------------------------------------- incoming messages

    method UpdatedPayload(e: Entry, m: Message, registryTitle: string) returns (u: Entry)
      ensures u == Merge(e, m, registryTitle)
    {
      var c := NewEntry(m, registryTitle, e.sequence);
      var blocks := MergePreservedTextBlocks(c.blocks, e.blocks);
      var links := MergePreservedLinks(c.links, e.links);
      u := c.(key := OrElse(e.key, c.key), messageId := OrElse(e.messageId, c.messageId), messageIds := MergedIds(e, m),
              title := PreferredTitle(e.title, c.title), status := OrElse(e.status, c.status),
              blocks := blocks, links := links, send := e.send);
    }

    method UpsertExisting(conversation: string, m: Message, registryTitle: string, entries: seq<Entry>, at: nat,
                          writes: nat)
      returns (verdict: Verdict)
      requires Valid() && conversation != "" && entries == Entries(conversation) && at < |entries|
      requires Authority(LedgerEntries.Upserted(entries, m, registryTitle, at).entries)
      modifies this`messages, this`markdown, this`crashed, db
      ensures Valid() && OthersKept(old(db.rows), conversation)
      ensures var d := LedgerEntries.Upserted(entries, m, registryTitle, at);
              && verdict == d.verdict
              && Entries(conversation) == (if writes >= 1 then d.entries else entries)
      ensures crashed == if writes == 0 || verdict == Duplicate then old(crashed)
                         else Dying(old(crashed), conversation, writes >= 3)
      ensures messages
              == Written(old(messages), conversation, Entries(conversation), writes >= 2 && verdict != Duplicate)
      ensures markdown
              == Written(old(markdown), conversation, Entries(conversation), writes >= 3 && verdict != Duplicate)
    {
      var u := UpdatedPayload(entries[at], m, registryTitle);
      if !Changed(entries[at], u) { return Duplicate; }
      RewriteEntries(conversation, Rewritten(entries, entries[at].key, u), writes);
      verdict := Updated;
    }

    /** Deliver a pulled message.  If the process survives, the ledger is what `Deliver` says and, unless
        the message was a duplicate, both projections show it; if it dies on the way, the authority is
        the old list or the new one. */
    method AppendMessageResult(conversation: string, m: Message, registryTitle: string, writes: nat)
      returns (verdict: Verdict)
      requires Valid() && conversation != "" && Proper(Incoming(m, registryTitle))
      modifies this`messages, this`markdown, this`crashed, db
      ensures Valid() && OthersKept(old(db.rows), conversation)
      ensures var d := Deliver(old(Entries(conversation)), m, registryTitle);
              && verdict == d.verdict
              && Entries(conversation) == (if writes >= 1 then d.entries else old(Entries(conversation)))
      ensures crashed == if writes == 0 || verdict == Duplicate then old(crashed)
                         else Dying(old(crashed), conversation, writes >= 3)
      ensures messages
              == Written(old(messages), conversation, Entries(conversation), writes >= 2 && verdict != Duplicate)
      ensures markdown
              == Written(old(markdown), conversation, Entries(conversation), writes >= 3 && verdict != Duplicate)
    {
      var entries := db.ListEntries(conversation);
      OneAuthority(db.rows, conversation);
      ApplyKeeps(entries, Incoming(m, registryTitle));
      AuthorityIsSound(entries);
      var known := FindById(entries, m.id);
      if known.Some? {
        verdict := UpsertExisting(conversation, m, registryTitle, entries, known.value, writes);
        return;
      }
      var echo := FindEcho(entries, m);
      if echo.Some? {
        var e := entries[echo.value];
        RewriteEntries(conversation, Rewritten(entries, e.key, Echoed(e, m)), writes);
        return EchoConfirmed;
      }
      var same := FindByDedupe(entries, m.dedupeKey);
      if same.Some? {
        verdict := UpsertExisting(conversation, m, registryTitle, entries, same.value, writes);
        return;
      }
      var e := NewEntry(m, registryTitle, NextSequence(entries));
      NewEntryReady(entries, m, registryTitle, e);
      AppendEntry(conversation, e, writes);
      verdict := Created;
    }

    // -------------------------------------------------------------- replies

    method AppendReply(conversation: string, r: ReplyCandidate, writes: nat)
      requires Valid() && conversation != "" && Proper(Reply(r))
      modifies this`messages, this`markdown, this`crashed, db
      ensures Valid() && OthersKept(old(db.rows), conversation)
      ensures Entries(conversation) == if writes >= 1 then Apply(old(Entries(conversation)), Reply(r))
                                       else old(Entries(conversation))
      ensures crashed == if writes == 0 then old(crashed) else Dying(old(crashed), conversation, writes >= 3)
      ensures messages == Written(old(messages), conversation, Entries(conversation), writes >= 2)
      ensures markdown == Written(old(markdown), conversation, Entries(conversation), writes >= 3)
    {
      var entries := db.ListEntries(conversation);
      OneAuthority(db.rows, conversation);
      var e := NewReply(r, NextSequence(entries));
      ReplyReady(entries, r, e);
      AppendEntry(conversation, e, writes);
    }

    method AppendReplyIfLatest(conversation: string, r: ReplyCandidate, expected: int, writes: nat)
      returns (accepted: bool)
      requires Valid() && conversation != "" && Proper(ReplyIfLatest(r, expected))
      modifies this`messages, this`markdown, this`crashed, db
      ensures Valid() && OthersKept(old(db.rows), conversation)
      ensures accepted <==> Accepts(old(Entries(conversation)), r, expected)
      ensures Entries(conversation) == if writes >= 1 then Apply(old(Entries(conversation)), ReplyIfLatest(r, expected))
                                       else old(Entries(conversation))
      ensures crashed == if writes == 0 || !accepted then old(crashed)
                         else Dying(old(crashed), conversation, writes >= 3)
      ensures messages == Written(old(messages), conversation, Entries(conversation), writes >= 2 && accepted)
      ensures markdown == Written(old(markdown), conversation, Entries(conversation), writes >= 3 && accepted)
    {
      var entries := db.ListEntries(conversation);
      if !LatestIs(entries, expected) { return false; }
      if Answered(entries, r.messageId) { return false; }
      OneAuthority(db.rows, conversation);
      var e := NewReply(r, NextSequence(entries));
      ReplyReady(entries, r, e);
      AppendEntry(conversation, e, writes);
      accepted := true;
    }

    // -------------------------------------------------------------- send results, recalls, annotations

    /** Rewrite the entries that the operation hits; write nothing if it hits none. */
    method Update(conversation: string, op: Op, writes: nat) returns (changed: bool)
      requires Valid() && conversation != ""
      requires InPlaceOp(op)
      modifies this`messages, this`markdown, this`crashed, db
      ensures Valid() && OthersKept(old(db.rows), conversation)
      ensures changed <==> AnyHit(op, old(Entries(conversation)))
      ensures Entries(conversation) == if writes >= 1 then Apply(old(Entries(conversation)), op)
                                       else old(Entries(conversation))
      ensures crashed == if writes == 0 || !changed then old(crashed)
                         else Dying(old(crashed), conversation, writes >= 3)
      ensures messages == Written(old(messages), conversation, Entries(conversation), writes >= 2 && changed)
      ensures markdown == Written(old(markdown), conversation, Entries(conversation), writes >= 3 && changed)
    {
      var entries := db.ListEntries(conversation);
      OneAuthority(db.rows, conversation);
      ApplyKeeps(entries, op);
      var updated;
      updated, changed := TouchEntries(entries, op);
      if changed { RewriteEntries(conversation, updated, writes); }
    }

    // -------------------------------------------------------------- reading

    /** A reader that saw `seen` some time ago and finds a projection missing reads again under the lock:
        only what the authority holds now is restored, and a purged conversation stays purged.  Recalled
        entries are left out unless they are asked for. */
    method ReadEntries(conversation: string, seen: seq<Entry>, includeRemoved: bool) returns (entries: seq<Entry>)
      requires Valid()
      modifies this`messages, this`markdown
      ensures Valid() && db.rows == old(db.rows)
      ensures var all := if seen == [] || (conversation in old(messages) && conversation in old(markdown)) then seen
                         else Entries(conversation);
              entries == if includeRemoved then all else Active(all)
      ensures Entries(conversation) == [] ==> messages == old(messages) && markdown == old(markdown)
      ensures forall c | c != conversation || c in old(messages) :: c in messages <==> c in old(messages)
      ensures forall c | c in old(messages) :: messages[c] == old(messages)[c]
      ensures forall c | c in old(markdown) :: c in markdown && markdown[c] == old(markdown)[c]
      ensures conversation in messages && conversation !in old(messages) ==>
                messages[conversation] == Entries(conversation)
      ensures conversation in markdown && conversation !in old(markdown) ==>
                markdown[conversation] == Entries(conversation)
      ensures seen != [] && Entries(conversation) != [] ==> conversation in messages && conversation in markdown
    {
      entries := seen;
      if seen != [] && !(conversation in messages && conversation in markdown) {
        entries := db.ListEntries(conversation);
        if entries != [] { Restore(conversation, entries); }
      }
      if !includeRemoved { entries := Active(entries); }
    }

    /** Write the projections that are missing. */
    method Restore(conversation: string, entries: seq<Entry>)
      requires Valid() && entries == Entries(conversation) != []
      modifies this`messages, this`markdown
      ensures Valid()
      ensures messages == Written(old(messages), conversation, entries, conversation !in old(messages))
      ensures markdown == Written(old(markdown), conversation, entries, conversation !in old(markdown))
    {
      RestoreMirrored(db.rows, messages, Written(messages, conversation, entries, conversation !in messages), markdown,
                      Written(markdown, conversation, entries, conversation !in markdown), crashed, conversation);
      if conversation !in messages { messages := messages[conversation := entries]; }
      if conversation !in markdown { markdown := markdown[conversation := entries]; }
    }

    /** Purge a conversation: its directory first, its rows after. */
    method PurgeConversation(conversation: string, writes: nat)
      requires Valid() && conversation != ""
      modifies this`messages, this`markdown, this`crashed, db
      ensures Valid() && OthersKept(old(db.rows), conversation)
      ensures messages == if writes >= 1 then old(messages) - {conversation} else old(messages)
      ensures markdown == if writes >= 1 then old(markdown) - {conversation} else old(markdown)
      ensures Entries(conversation) == if writes >= 2 then Apply(old(Entries(conversation)), Purge)
                                       else old(Entries(conversation))
    {
      if writes == 0 { return; }
      ghost var before, m, k := db.rows, messages, markdown;
      messages, markdown := messages - {conversation}, markdown - {conversation};
      if writes >= 2 { var deleted := db.DeleteConversation(conversation); }
      OneAuthority(before, conversation);
      AuthorityKept(before, db.rows, conversation);
      PurgeMirrored(before, db.rows, m, k, crashed, conversation, writes >= 2);
      crashed := Dying(crashed, conversation, writes >= 2);
    }
  }

  /** Neither constraint refuses an append. */
  lemma AppendIsAllowed(rows: seq<Row>, conversation: string, e: Entry)
    requires Constrained(rows) && AllAuthority(rows)
    requires EntryOk(e) && e.sequence == NextSequence(Listed(rows, conversation))
    requires Authority(Appended(Listed(rows, conversation), e))
    ensures e.key != "" && !Taken(rows, conversation, e)
  {
    OneAuthority(rows, conversation);
    AppendIsListed(rows, conversation, e);
  }

  /** What an append leaves in the table. */
  lemma AppendIsStored(before: seq<Row>, after: seq<Row>, conversation: string, e: Entry)
    requires Constrained(before) && AllAuthority(before) && Constrained(after)
    requires EntryOk(e) && e.sequence == NextSequence(Listed(before, conversation))
    requires Authority(Appended(Listed(before, conversation), e))
    requires forall x ::
               x in Listed(after, conversation) <==> x == e || (x in Listed(before, conversation) && x.key != e.key)
    requires forall c | c != conversation :: Listed(after, c) == Listed(before, c)
    ensures Listed(after, conversation) == Appended(Listed(before, conversation), e) && AllAuthority(after)
    ensures Listed(after, conversation) != []
  {
    OneAuthority(before, conversation);
    AppendIsListed(before, conversation, e);
    UpsertReadBack(before, after, conversation, e);
    AuthorityKept(before, after, conversation);
  }

  lemma UpsertReadBack(before: seq<Row>, after: seq<Row>, conversation: string, e: Entry)
    requires Constrained(before) && Constrained(after)
    requires !Taken(before, conversation, e)
    requires forall x ::
               x in Listed(after, conversation) <==> x == e || (x in Listed(before, conversation) && x.key != e.key)
    ensures Listed(after, conversation) == Listed(WithRow(before, conversation, e), conversation)
  {
    UpsertListed(before, conversation, e, conversation);
    ListedExact(after, conversation);
    OrderedUnique(Listed(after, conversation), Listed(WithRow(before, conversation, e), conversation));
  }
}
