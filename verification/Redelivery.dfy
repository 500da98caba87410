/** Delivering the same message twice: exactly when the second delivery is recognised and changes nothing. */
module Redelivery {
  import opened Wrappers
  import opened LedgerEntries
  import opened LedgerMerge

  ghost predicate Sound(entries: seq<Entry>) {
    KeysDistinct(entries) && forall i | 0 <= i < |entries| :: LinksAgree(entries[i].links)
  }

  // ---------------------------------------------------------------- ids

  lemma {:induction false} AppendNewExact(ids: seq<string>, more: seq<string>)
    ensures forall x :: x in AppendNew(ids, more) <==> x in ids || (x in more && x != "")
    ensures ids <= AppendNew(ids, more)
    decreases |more|
  {
    if more != [] {
      assert more == [more[0]] + more[1..];
      AppendNewExact(if more[0] == "" || more[0] in ids then ids else ids + [more[0]], more[1..]);
    }
  }

  lemma EntryIdsExact(e: Entry)
    ensures forall x :: x in EntryIds(e) <==> x != "" && (x == e.messageId || x in e.messageIds)
  {
    AppendNewExact(if e.messageId == "" then [] else [e.messageId], e.messageIds);
  }

  /** After merging the message into the entry, the entry still answers to the message's id: it is the
      primary id, or among the last ids that are kept. */
  predicate Retained(e: Entry, m: Message) {
    OrElse(e.messageId, m.id) == m.id || m.id in MergedIds(e, m)
  }

  lemma RetainedExact(e: Entry, m: Message, registryTitle: string)
    requires m.id != ""
    ensures m.id in EntryIds(Merge(e, m, registryTitle)) <==> Retained(e, m)
  {
    EntryIdsExact(Merge(e, m, registryTitle));
  }

  /** The message is found by its id, something else in the entry changes, and the rewrite drops the id. */
  predicate Forgets(entries: seq<Entry>, m: Message, registryTitle: string) {
    var known := FindById(entries, m.id);
    && known.Some? && !Retained(entries[known.value], m)
    && Changed(entries[known.value], Merge(entries[known.value], m, registryTitle))
  }

  /** Even then the entry is found again: by the dedupe key, when nothing else is found before it. */
  predicate FoundByDedupeKey(entries: seq<Entry>, m: Message, at: nat) {
    && m.dedupeKey != ""
    && (forall k | 0 <= k < |entries| && k != at :: m.id !in EntryIds(entries[k]))
    && (forall k | 0 <= k < |entries| && k < at :: entries[k].role == Assistant || entries[k].dedupeKey != m.dedupeKey)
    && (m.isSelf && m.text != "" ==>
          forall k | 0 <= k < |entries| && |entries| - ECHO_LOOKBACK <= k && k != at :: !EchoMatches(entries[k], m))
  }

  // ---------------------------------------------------------------- the second delivery

  lemma SecondAtKnown(entries: seq<Entry>, m: Message, registryTitle: string, at: nat)
    requires Sound(entries) && LinksAgree(m.links) && m.id != "" && at < |entries|
    requires forall k | 0 <= k < at :: m.id !in EntryIds(entries[k])
    requires Retained(entries[at], m)
    ensures var after := entries[at := Merge(entries[at], m, registryTitle)];
            Deliver(after, m, registryTitle) == Delivery(after, Duplicate, at)
  {
    RetainedExact(entries[at], m, registryTitle);
    MergeSettles(entries[at], m, registryTitle);
    var after := entries[at := Merge(entries[at], m, registryTitle)];
    assert m.id in EntryIds(after[at]) && forall k | 0 <= k < at :: after[k] == entries[k];
    assert FindById(after, m.id) == Some(at);
  }

  lemma SecondAtForgotten(entries: seq<Entry>, m: Message, registryTitle: string, at: nat)
    requires Sound(entries) && LinksAgree(m.links) && m.id != "" && at < |entries|
    requires !Retained(entries[at], m) && FoundByDedupeKey(entries, m, at)
    ensures var after := entries[at := Merge(entries[at], m, registryTitle)];
            Deliver(after, m, registryTitle) == Delivery(after, Duplicate, at)
  {
    RetainedExact(entries[at], m, registryTitle);
    MergeSettles(entries[at], m, registryTitle);
    var after := entries[at := Merge(entries[at], m, registryTitle)];
    assert forall k | 0 <= k < |after| :: k != at ==> after[k] == entries[k];
    assert FindById(after, m.id) == None;
    assert !EchoMatches(after[at], m);
    assert FindEcho(after, m) == None;
    assert FindByDedupe(after, m.dedupeKey) == Some(at);
  }

  /** Whoever is not found by id afterwards is found elsewhere or not at all. */
  lemma SecondElsewhere(entries: seq<Entry>, m: Message, registryTitle: string, at: nat)
    requires Sound(entries) && m.id != "" && at < |entries|
    requires !Retained(entries[at], m) && !FoundByDedupeKey(entries, m, at)
    ensures var after := entries[at := Merge(entries[at], m, registryTitle)];
            Deliver(after, m, registryTitle) != Delivery(after, Duplicate, at)
  {
    RetainedExact(entries[at], m, registryTitle);
    var after := entries[at := Merge(entries[at], m, registryTitle)];
    assert forall k | 0 <= k < |after| :: k != at ==> after[k] == entries[k];
    assert FindById(after, m.id) != Some(at);
    assert !EchoMatches(after[at], m);
    if FindById(after, m.id).None? && FindEcho(after, m).None? {
      assert forall k | 0 <= k < |entries| && k != at :: m.id !in EntryIds(after[k]);
      assert m.isSelf && m.text != "" ==>
          forall k | 0 <= k < |entries| && |entries| - ECHO_LOOKBACK <= k :: !EchoMatches(after[k], m);
      assert FindByDedupe(after, m.dedupeKey) != Some(at);
    }
  }

  ghost predicate Recognised(entries: seq<Entry>, m: Message, registryTitle: string, at: nat) {
    Deliver(entries, m, registryTitle) == Delivery(entries, Duplicate, at)
  }

  lemma SecondAfterUpdate(entries: seq<Entry>, m: Message, registryTitle: string, at: nat)
    requires Sound(entries) && LinksAgree(m.links) && m.id != "" && at < |entries|
    requires Retained(entries[at], m) ==> forall k | 0 <= k < at :: m.id !in EntryIds(entries[k])
    ensures Recognised(entries[at := Merge(entries[at], m, registryTitle)], m, registryTitle, at)
            <==> Retained(entries[at], m) || FoundByDedupeKey(entries, m, at)
  {
    if Retained(entries[at], m) {
      SecondAtKnown(entries, m, registryTitle, at);
    } else if FoundByDedupeKey(entries, m, at) {
      SecondAtForgotten(entries, m, registryTitle, at);
    } else {
      SecondElsewhere(entries, m, registryTitle, at);
    }
  }

  lemma FoundAtEnd(entries: seq<Entry>, e: Entry, id: string)
    requires FindById(entries, id).None? && id in EntryIds(e)
    ensures FindById(entries + [e], id) == Some(|entries|)
  {
    var after := entries + [e];
    assert after[|entries|] == e;
    forall k | 0 <= k < |entries| ensures id !in EntryIds(after[k]) { assert after[k] == entries[k]; }
  }

  lemma UnchangedIsDuplicate(entries: seq<Entry>, m: Message, registryTitle: string, at: nat)
    requires FindById(entries, m.id) == Some(at)
    requires !Changed(entries[at], Merge(entries[at], m, registryTitle))
    ensures Recognised(entries, m, registryTitle, at)
  {
  }

  lemma SecondAfterCreation(entries: seq<Entry>, m: Message, registryTitle: string)
    requires LinksAgree(m.links) && m.id != "" && FindById(entries, m.id).None?
    ensures Recognised(entries + [NewEntry(m, registryTitle, NextSequence(entries))], m, registryTitle, |entries|)
  {
    var e := NewEntry(m, registryTitle, NextSequence(entries));
    NewEntrySettles(m, registryTitle, NextSequence(entries));
    EntryIdsExact(e);
    FoundAtEnd(entries, e, m.id);
    UnchangedIsDuplicate(entries + [e], m, registryTitle, |entries|);
  }

  /** What a delivery off the echo path was, by what it reports. */
  lemma VerdictCases(entries: seq<Entry>, m: Message, registryTitle: string)
    requires Sound(entries)
    ensures var d := Deliver(entries, m, registryTitle); var known := FindById(entries, m.id);
            && (d.verdict == Duplicate ==> d.entries == entries && !Forgets(entries, m, registryTitle))
            && (d.verdict == Created ==> known.None? && d.at == |entries|)
            && (d.verdict == Created ==> d.entries == entries + [NewEntry(m, registryTitle, NextSequence(entries))])
            && (d.verdict == Updated ==>
                  && d.at < |entries| && d.entries == entries[d.at := Merge(entries[d.at], m, registryTitle)]
                  && (|| known == Some(d.at)
                      || (known.None? && FoundByDedupeKey(entries, m, d.at) && entries[d.at].role != Assistant))
                  && (Forgets(entries, m, registryTitle) <==> known.Some? && !Retained(entries[d.at], m)))
  {
    var d := Deliver(entries, m, registryTitle);
    if d.verdict == Updated {
      RewrittenAt(entries, d.at, Merge(entries[d.at], m, registryTitle));
      if FindById(entries, m.id).None? { NotFoundMeansDedupe(entries, m); }
    }
  }

  /** The four things a delivery can be. */
  ghost predicate DeliveryShape(entries: seq<Entry>, m: Message, registryTitle: string, d: Delivery) {
    match d.verdict
    case Duplicate => d.entries == entries
    case Created => FindById(entries, m.id).None?
                    && d.entries == entries + [NewEntry(m, registryTitle, NextSequence(entries))]
    case Updated => d.at < |entries| && d.entries == entries[d.at := Merge(entries[d.at], m, registryTitle)]
                    && (FindById(entries, m.id) == Some(d.at) || entries[d.at].role != Assistant)
    case EchoConfirmed => d.at < |entries| && d.entries == entries[d.at := Echoed(entries[d.at], m)]
                          && m.isSelf && m.text != "" && EchoMatches(entries[d.at], m)
  }

  lemma DeliveryHasShape(entries: seq<Entry>, m: Message, registryTitle: string)
    requires Sound(entries)
    ensures DeliveryShape(entries, m, registryTitle, Deliver(entries, m, registryTitle))
  {
    VerdictCases(entries, m, registryTitle);
    var d := Deliver(entries, m, registryTitle);
    if d.verdict == EchoConfirmed { RewrittenAt(entries, d.at, Echoed(entries[d.at], m)); }
  }

  /** Redelivery is recognised and changes nothing, if and only if the first delivery did not forget the
      message's id, or the entry is found again by its dedupe key. */
  lemma RedeliveryIff(entries: seq<Entry>, m: Message, registryTitle: string)
    requires Sound(entries) && LinksAgree(m.links) && m.id != ""
    requires Deliver(entries, m, registryTitle).verdict != EchoConfirmed
    ensures var d := Deliver(entries, m, registryTitle);
            Recognised(d.entries, m, registryTitle, d.at)
            <==> !Forgets(entries, m, registryTitle) || FoundByDedupeKey(entries, m, d.at)
  {
    VerdictCases(entries, m, registryTitle);
    var d := Deliver(entries, m, registryTitle);
    if d.verdict == Updated {
      SecondAfterUpdate(entries, m, registryTitle, d.at);
    } else if d.verdict == Created {
      SecondAfterCreation(entries, m, registryTitle);
    }
  }

  /** A first delivery that was recognised by its dedupe key is recognised so again. */
  lemma NotFoundMeansDedupe(entries: seq<Entry>, m: Message)
    requires FindById(entries, m.id).None? && FindEcho(entries, m).None? && FindByDedupe(entries, m.dedupeKey).Some?
    ensures FoundByDedupeKey(entries, m, FindByDedupe(entries, m.dedupeKey).value)
  {
  }

  // ---------------------------------------------------------------- a forgotten id, concretely

  /** For every such message the ledger ends up with two entries. */
  lemma ForgottenIsStoredTwice(entries: seq<Entry>, m: Message, registryTitle: string, at: nat)
    requires Sound(entries) && LinksAgree(m.links) && m.id != "" && m.dedupeKey == "" && !m.isSelf
    requires FindById(entries, m.id) == Some(at) && Forgets(entries, m, registryTitle)
    requires forall k | 0 <= k < |entries| && k != at :: m.id !in EntryIds(entries[k])
    ensures var d := Deliver(entries, m, registryTitle);
            var second := Deliver(d.entries, m, registryTitle);
            second.verdict == Created && |second.entries| == |entries| + 1
  {
    VerdictCases(entries, m, registryTitle);
    RetainedExact(entries[at], m, registryTitle);
    var after := entries[at := Merge(entries[at], m, registryTitle)];
    assert forall k | 0 <= k < |after| :: k != at ==> after[k] == entries[k];
    assert FindById(after, m.id) == None;
  }

  lemma {:induction false} AppendAllNew(ids: seq<string>, more: seq<string>)
    requires forall i | 0 <= i < |more| :: more[i] != "" && more[i] !in ids
    requires forall i, j | 0 <= i < j < |more| :: more[i] != more[j]
    ensures AppendNew(ids, more) == ids + more
    decreases |more|
  {
    if more == [] {
      assert ids + more == ids;
    } else {
      assert forall i | 0 <= i < |more[1..]| :: more[1..][i] == more[i + 1];
      AppendAllNew(ids + [more[0]], more[1..]);
      assert ids + [more[0]] + more[1..] == ids + more;
    }
  }

  function Letters(n: nat): seq<string>
    requires n <= 20
  {
    seq(n, k requires 0 <= k < n => ['A' + k as char])
  }

  /** Ids that are stored as they are. */
  predicate Plain(t: string) {
    t != "" && !("weflow:message:" <= t) && !("hook:" <= t)
  }

  lemma ExpandPlain(ids: seq<string>)
    requires forall t | t in ids :: Plain(t)
    ensures Expand(ids) == ids
  {
    if ids != [] {
      assert ids[0] in ids && ids == [ids[0]] + ids[1..];
      assert forall t | t in ids[1..] :: t in ids;
      ExpandPlain(ids[1..]);
    }
  }

  lemma ThreePlain(id: string, others: seq<string>)
    requires |others| == 2 && Plain(id) && Plain(others[0]) && Plain(others[1])
    requires id !in others && others[0] != others[1]
    ensures Expand([id] + others) == [id] + others && AppendNew([], [id] + others) == [id] + others
  {
    var all := [id] + others;
    ExpandPlain(all);
    AppendAllNew([], all);
    assert [] + all == all;
  }

  lemma PlainAliases(m: Message)
    requires |m.others| == 2 && Plain(m.id) && Plain(m.others[0]) && Plain(m.others[1])
    requires m.id !in m.others && m.others[0] != m.others[1]
    ensures Aliases(m) == Expand(Aliases(m)) == [m.id] + m.others
  {
    ThreePlain(m.id, m.others);
  }

  /** An entry that lists twenty ids is found under its second id by a message that brings two new ids
      along; the last twenty do not contain the message's id. */
  lemma IdPushedOut(e: Entry, m: Message, ids: seq<string>)
    requires EntryIds(e) == ids && |ids| == ID_LIMIT && ids[1] == m.id
    requires |m.others| == 2 && Plain(m.id) && Plain(m.others[0]) && Plain(m.others[1])
    requires m.others[0] !in ids && m.others[1] !in ids && m.others[0] != m.others[1]
    requires forall i, j | 0 <= i < j < |ids| :: ids[i] != ids[j]
    ensures m.id !in MergedIds(e, m)
  {
    assert m.id in ids;
    PlainAliases(m);
    var all := [m.id] + m.others;
    assert all[1..] == m.others;
    assert AppendNew(ids, all) == AppendNew(ids, m.others);
    AppendAllNew(ids, m.others);
    LastOfLonger(ids, m.others);
  }

  lemma LastOfLonger(ids: seq<string>, more: seq<string>)
    requires |ids| == ID_LIMIT && |more| == 2 && ids[1] !in more && forall i, j | 0 <= i < j < |ids| :: ids[i] != ids[j]
    ensures ids[1] !in LastIds(ids + more)
  {
    assert LastIds(ids + more) == ids[2..] + more;
  }

  lemma TwentyIds() returns (ids: seq<string>, y: string, z: string)
    ensures |ids| == ID_LIMIT && y !in ids && z !in ids && y != z && Plain(y) && Plain(z)
    ensures forall i | 0 <= i < |ids| :: Plain(ids[i]) && !("reply:" <= ids[i])
    ensures forall i, j | 0 <= i < j < |ids| :: ids[i] != ids[j]
  {
    ids, y, z := ["p", "x"] + Letters(18), "y", "z";
    assert forall i | 2 <= i < |ids| :: |ids[i]| == 1 && ids[i][0] == 'A' + (i - 2) as char;
    assert forall i, j | 0 <= i < j < |ids| :: ids[i][0] != ids[j][0];
  }

  lemma ForgottenExists() returns (e: Entry, m: Message)
    ensures Sound([e]) && LinksAgree(m.links) && m.id != "" && m.dedupeKey == "" && !m.isSelf
    ensures FindById([e], m.id) == Some(0) && Forgets([e], m, "")
  {
    var ids, y, z := TwentyIds();
    e, m := EntryAndNews(ids, y, z);
    FirstAndRest(e, ids);
    IdPushedOut(e, m, ids);
    assert ids[1] in EntryIds(e);
    OnlyEntryForgets(e, m);
  }

  lemma EntryAndNews(ids: seq<string>, y: string, z: string) returns (e: Entry, m: Message)
    requires |ids| > 1
    ensures e.key == e.messageId == ids[0] && e.messageIds == ids[1..] && e.links == [] && e.facts != m.facts
    ensures m.id == ids[1] && m.others == [y, z] && m.links == [] && m.dedupeKey == "" && !m.isSelf
  {
    e := Entry(ids[0], ids[0], ids[1..], "", 1, User, "active", "", [], [], Send("", "", ""), "");
    m := Message(ids[1], [y, z], "", false, "", "", [], [], "news");
  }

  lemma FirstAndRest(e: Entry, ids: seq<string>)
    requires |ids| > 1 && e.messageId == ids[0] && e.messageIds == ids[1..]
    requires forall i | 0 <= i < |ids| :: ids[i] != ""
    requires forall i, j | 0 <= i < j < |ids| :: ids[i] != ids[j]
    ensures EntryIds(e) == ids
  {
    AppendAllNew([ids[0]], ids[1..]);
    assert [ids[0]] + ids[1..] == ids;
  }

  lemma OnlyEntryForgets(e: Entry, m: Message)
    requires m.id in EntryIds(e) && m.id !in MergedIds(e, m) && e.messageId !in ["", m.id] && e.facts != m.facts
    ensures FindById([e], m.id) == Some(0) && Forgets([e], m, "")
  {
    assert [e][0] == e;
  }

  // ---------------------------------------------------------------- echoes

  /** The claimed entry is found again. */
  lemma EchoFoundAgain(entries: seq<Entry>, m: Message, at: nat)
    requires FindEcho(entries, m) == Some(at)
    ensures FindEcho(entries[at := Echoed(entries[at], m)], m) == Some(at)
  {
    var after := entries[at := Echoed(entries[at], m)];
    assert EchoMatches(after[at], m);
    assert forall k | at < k < |entries| :: after[k] == entries[k];
  }

  lemma EchoKeepsIds(entries: seq<Entry>, m: Message, at: nat)
    requires at < |entries| && FindById(entries, m.id).None?
    ensures FindById(entries[at := Echoed(entries[at], m)], m.id).None?
  {
    var after := entries[at := Echoed(entries[at], m)];
    forall k | 0 <= k < |after| ensures m.id !in EntryIds(after[k]) {
      assert EntryIds(after[k]) == EntryIds(entries[k]);
    }
  }

  /** An echo is confirmed again at the same entry, and nothing changes. */
  lemma EchoConfirmedAgain(entries: seq<Entry>, m: Message, registryTitle: string)
    requires KeysDistinct(entries) && Deliver(entries, m, registryTitle).verdict == EchoConfirmed
    ensures var d := Deliver(entries, m, registryTitle); Deliver(d.entries, m, registryTitle) == d
  {
    var at := FindEcho(entries, m).value;
    var after := entries[at := Echoed(entries[at], m)];
    RewrittenAt(entries, at, Echoed(entries[at], m));
    EchoKeepsIds(entries, m, at);
    EchoFoundAgain(entries, m, at);
    assert after[at := Echoed(after[at], m)] == after;
    assert KeysDistinct(after);
    RewrittenAt(after, at, Echoed(after[at], m));
  }

  /** One echo can claim two entries: after it claimed an entry, an identical reply was appended. */
  lemma EchoClaimsTwice(entries: seq<Entry>, m: Message, registryTitle: string, again: Entry)
    requires Deliver(entries, m, registryTitle).verdict == EchoConfirmed && m.id !in EntryIds(again)
    requires again.send.echoId == "" && EchoMatches(again, m)
    ensures var d := Deliver(entries, m, registryTitle); var later := Deliver(d.entries + [again], m, registryTitle);
            && later.verdict == EchoConfirmed && later.at == |entries|
            && d.at < |entries| && d.entries[d.at].send.echoId == later.entries[later.at].send.echoId == m.id
  {
    var d := Deliver(entries, m, registryTitle);
    var longer := d.entries + [again];
    forall k | 0 <= k < |longer| ensures m.id !in EntryIds(longer[k]) {
      if k < |entries| && entries[k].key == entries[d.at].key { assert EntryIds(longer[k]) == EntryIds(entries[d.at]); }
    }
    assert FindById(longer, m.id) == None;
    assert longer[|entries|] == again;
    assert FindEcho(longer, m) == Some(|entries|);
  }

  // ---------------------------------------------------------------- evidence

  /** What an entry holds as evidence: the identities of its annotations, and its links beyond pending. */
  ghost predicate EvidenceKept(e: Entry, u: Entry) {
    && (forall b | b in e.blocks && IsAnnotation(b) :: Identity(b) in Identities(u.blocks))
    && (forall l | l in e.links && LinkKey(l) != "" && !StillPending(l) ::
          exists k | k in u.links :: k.(url := l.url) == l)
  }

  /** No delivery loses an entry, its key, its place, or its evidence. */
  lemma DeliveryKeepsEvidence(entries: seq<Entry>, m: Message, registryTitle: string)
    requires Sound(entries) && LinksAgree(m.links)
    ensures var d := Deliver(entries, m, registryTitle);
            && |entries| <= |d.entries|
            && forall i | 0 <= i < |entries| ::
                 && d.entries[i].key == entries[i].key && d.entries[i].sequence == entries[i].sequence
                 && EvidenceKept(entries[i], d.entries[i])
  {
    var d := Deliver(entries, m, registryTitle);
    VerdictCases(entries, m, registryTitle);
    forall i | 0 <= i < |entries|
      ensures d.entries[i].key == entries[i].key && d.entries[i].sequence == entries[i].sequence
      ensures EvidenceKept(entries[i], d.entries[i])
    {
      KeepsOwnEvidence(entries[i]);
      if d.verdict == Updated && d.at == i { MergeKeepsEvidence(entries[i], m, registryTitle); }
    }
  }

  lemma MergeKeepsEvidence(e: Entry, m: Message, registryTitle: string)
    requires LinksAgree(e.links)
    ensures EvidenceKept(e, Merge(e, m, registryTitle))
  {
    AnnotationsKept(m.blocks, e.blocks);
    forall l | l in e.links && LinkKey(l) != "" && !StillPending(l)
      ensures exists k | k in Merge(e, m, registryTitle).links :: k.(url := l.url) == l
    {
      LinksKept(m.links, e.links, l);
    }
  }

  lemma KeepsOwnEvidence(e: Entry)
    ensures EvidenceKept(e, e)
  {
    forall l | l in e.links ensures exists k | k in e.links :: k.(url := l.url) == l {
      assert l.(url := l.url) == l;
    }
  }
}
