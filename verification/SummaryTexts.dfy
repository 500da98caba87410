/** What the summaries of a reply say: they name every expected id and tell every recorded reason, and they
    contain nothing else that could be taken for an id. */
module SummaryTexts {
  import opened SendParts
  import opened QueueProjection
  import opened TaskProjection
  import opened LockStep

  // ---------------------------------------------------------------- texts within texts

  lemma OccursInOne(x: string, sep: char, y: string, b: string, i: nat)
    requires sep !in b && OccursAt(x + [sep] + y, b, i)
    ensures Mentions(x, b) || Mentions(y, b)
  {
    var t := x + [sep] + y;
    assert t[|x|] == sep;
    forall m | i <= m < i + |b| ensures t[m] != sep {
      assert t[m] == t[i..i + |b|][m - i] == b[m - i];
      assert b[m - i] in b;
    }
    if i + |b| <= |x| {
      assert x[i..i + |b|] == b;
      assert OccursAt(x, b, i);
    } else if i > |x| {
      assert y[i - |x| - 1..i - |x| - 1 + |b|] == b;
      assert OccursAt(y, b, i - |x| - 1);
    }
  }

  /** Joining texts with a separator that the id does not contain adds no occurrence of the id. */
  lemma JoinMentions(x: string, sep: char, y: string, b: string)
    requires sep !in b && !Mentions(x, b) && !Mentions(y, b)
    ensures !Mentions(x + [sep] + y, b)
  {
    forall i: int ensures !OccursAt(x + [sep] + y, b, i) {
      if OccursAt(x + [sep] + y, b, i) { OccursInOne(x, sep, y, b, i); }
    }
  }

  /** What mentions a text mentions everything within it. */
  lemma MentionsInner(text: string, b: string, h: string)
    requires Mentions(text, b) && Mentions(b, h)
    ensures Mentions(text, h)
  {
    var i :| 0 <= i <= |text| - |b| && OccursAt(text, b, i);
    var k :| 0 <= k <= |b| - |h| && OccursAt(b, h, k);
    assert b == text[i..i + |b|];
    assert forall m | 0 <= m < |h| ::
        h[m] == b[k..k + |h|][m] == b[k + m] == text[i..i + |b|][k + m] == text[i + k + m];
    assert text[i + k..i + k + |h|] == h;
    assert OccursAt(text, h, i + k);
  }

  lemma MentionsWithin(text: string, before: string, after: string, id: string)
    requires Mentions(text, id)
    ensures Mentions(before + text + after, id)
  {
    var i :| 0 <= i <= |text| - |id| && OccursAt(text, id, i);
    var whole := before + text + after;
    assert whole[|before| + i..|before| + i + |id|] == text[i..i + |id|];
    assert OccursAt(whole, id, |before| + i);
  }

  lemma MentionsItself(id: string, after: string)
    ensures Mentions(id + after, id)
  {
    assert (id + after)[0..0 + |id|] == id;
    assert OccursAt(id + after, id, 0);
  }

  lemma NamedFirst(b: BridgeId, report: string, rest: string)
    ensures Mentions(b + report + rest, b)
  {
    MentionsItself(b, report + rest);
    assert b + (report + rest) == b + report + rest;
  }

  lemma NamedLater(head: string, tail: string, b: BridgeId)
    requires Mentions(tail, b)
    ensures Mentions(head + (";" + tail), b)
  {
    MentionsWithin(tail, head + ";", "", b);
    assert head + ";" + tail + "" == head + (";" + tail);
  }

  /** The summary of a multi-part reply names every expected id. */
  lemma {:induction false} JoinNamesAll(ids: seq<BridgeId>, acks: map<BridgeId, AckRecord>, b: BridgeId)
    requires b in ids
    ensures Mentions(JoinParts(ids, acks), b)
  {
    var report := Report(ids[0], acks);
    if ids[0] == b {
      NamedFirst(b, report, if |ids| == 1 then "" else ";" + JoinParts(ids[1..], acks));
    } else {
      assert b in ids[1..];
      JoinNamesAll(ids[1..], acks, b);
      NamedLater(ids[0] + report, JoinParts(ids[1..], acks), b);
    }
  }

  lemma SummaryNamesAll(ids: seq<BridgeId>, acks: map<BridgeId, AckRecord>, b: BridgeId)
    requires b in ids
    ensures Mentions(Summary(ids, acks), b) && Summary(ids, acks) != ""
  {
    JoinNamesAll(ids, acks, b);
    MentionsWithin(JoinParts(ids, acks), "bridge_ack_parts:", "", b);
    assert "bridge_ack_parts:" + JoinParts(ids, acks) + "" == "bridge_ack_parts:" + JoinParts(ids, acks);
  }

  lemma ReasonWithSummary(q: QueueItem, a: Ack) returns (rest: string)
    requires |ExpectedIds(q, a)| > 1
    ensures NextReason(q, a) == Summary(ExpectedIds(q, a), AcksWith(q.acks, a)) + rest
  {
    var local := LocalStatuses(PartsOf(q.details), ExpectedIds(q, a));
    rest := if local != [] then ";local_parts:" + LocalReason(q) else "";
  }

  lemma ReasonNamesAll(q: QueueItem, a: Ack, c: BridgeId)
    requires c in ExpectedIds(q, a) && |ExpectedIds(q, a)| > 1
    ensures Mentions(NextReason(q, a), c) && NextReason(q, a) != ""
  {
    SummaryNamesAll(ExpectedIds(q, a), AcksWith(q.acks, a), c);
    var rest := ReasonWithSummary(q, a);
    NamedBefore(Summary(ExpectedIds(q, a), AcksWith(q.acks, a)), rest, c);
  }

  lemma NamedBefore(summary: string, rest: string, c: BridgeId)
    requires Mentions(summary, c) && summary != ""
    ensures Mentions(summary + rest, c) && summary + rest != ""
  {
    MentionsWithin(summary, "", rest, c);
    assert "" + summary + rest == summary + rest;
  }

  /** After a stored ack the note of a multi-part reply names every expected id. */
  lemma NoteNamesAll(q: QueueItem, a: Ack, c: BridgeId)
    requires Distinct(q.bridgeIds) && a.id in q.bridgeIds && c in q.bridgeIds
    requires |q.bridgeIds| > 1 && ApplyAck(q, a).Updated?
    ensures Mentions(QueueAfter(q, a).note, c) && QueueAfter(q, a).note != ""
  {
    ExpectedUnchanged(q, a);
    ReasonNamesAll(q, a, c);
  }

  lemma ReportTells(c: BridgeId, acks: map<BridgeId, AckRecord>, x: string)
    requires c in acks && Mentions(acks[c].reason, x) && acks[c].reason != ""
    ensures Mentions(c + Report(c, acks), x)
  {
    var head := c + (":" + StatusName(RecordedStatus(acks, c)) + ":");
    MentionsWithin(acks[c].reason, head, "", x);
    assert head + acks[c].reason + "" == c + Report(c, acks);
  }

  lemma ToldLater(first: string, rest: string, x: string)
    requires Mentions(rest, x)
    ensures Mentions(first + ";" + rest, x)
  {
    MentionsWithin(rest, first + ";", "", x);
    assert first + ";" + rest + "" == first + ";" + rest;
  }

  lemma ToldFirst(first: string, rest: string, x: string)
    requires Mentions(first, x)
    ensures Mentions(first + rest, x)
  {
    MentionsWithin(first, "", rest, x);
    assert "" + first + rest == first + rest;
  }

  lemma JoinedLast(ids: seq<BridgeId>, acks: map<BridgeId, AckRecord>)
    requires |ids| == 1
    ensures JoinParts(ids, acks) == ids[0] + Report(ids[0], acks)
  {
  }

  lemma JoinedMore(ids: seq<BridgeId>, acks: map<BridgeId, AckRecord>)
    requires |ids| > 1
    ensures JoinParts(ids, acks) == ids[0] + Report(ids[0], acks) + ";" + JoinParts(ids[1..], acks)
  {
    SemicolonBetween(ids[0] + Report(ids[0], acks), JoinParts(ids[1..], acks));
  }

  lemma SemicolonBetween(first: string, rest: string)
    ensures first + (";" + rest) == first + ";" + rest
  {
  }

  /** The summary tells what was recorded for every expected id. */
  lemma {:induction false} JoinTellsAll(ids: seq<BridgeId>, acks: map<BridgeId, AckRecord>, c: BridgeId, x: string)
    requires c in ids && c in acks && Mentions(acks[c].reason, x) && acks[c].reason != ""
    ensures Mentions(JoinParts(ids, acks), x)
  {
    var first := ids[0] + Report(ids[0], acks);
    if ids[0] == c {
      ReportTells(c, acks, x);
      if |ids| == 1 {
        JoinedLast(ids, acks);
      } else {
        JoinedMore(ids, acks);
        SemicolonBetween(first, JoinParts(ids[1..], acks));
        ToldFirst(first, ";" + JoinParts(ids[1..], acks), x);
      }
    } else {
      JoinedMore(ids, acks);
      assert c in ids[1..];
      JoinTellsAll(ids[1..], acks, c, x);
      ToldLater(first, JoinParts(ids[1..], acks), x);
    }
  }

  lemma SummaryTellsAll(ids: seq<BridgeId>, acks: map<BridgeId, AckRecord>, c: BridgeId, x: string)
    requires c in ids && c in acks && Mentions(acks[c].reason, x) && acks[c].reason != ""
    ensures Mentions(Summary(ids, acks), x)
  {
    JoinTellsAll(ids, acks, c, x);
    MentionsWithin(JoinParts(ids, acks), "bridge_ack_parts:", "", x);
    assert "bridge_ack_parts:" + JoinParts(ids, acks) + "" == "bridge_ack_parts:" + JoinParts(ids, acks);
  }

  // ---------------------------------------------------------------- tokens

  predicate Hex(c: char) {
    '0' <= c <= '9' || 'a' <= c <= 'f'
  }

  /** The random part at the end of a bridge id: twelve hexadecimal digits. */
  predicate Token(h: string) {
    |h| == 12 && forall i | 0 <= i < |h| :: Hex(h[i])
  }

  lemma NoTokenInShort(w: string, h: string)
    requires Token(h) && |w| < 12
    ensures !Mentions(w, h)
  {
  }

  /** No token spans a character that is no digit. */
  lemma JoinFree(x: string, sep: char, y: string, h: string)
    requires Token(h) && !Hex(sep) && !Mentions(x, h) && !Mentions(y, h)
    ensures !Mentions(x + [sep] + y, h)
  {
    JoinMentions(x, sep, y, h);
  }

  lemma NoTokenInWords(w: string, x: string, sep: char, y: string, h: string)
    requires Token(h) && w == x + [sep] + y && |x| < 12 && |y| < 12 && !Hex(sep)
    ensures !Mentions(w, h)
  {
    NoTokenInShort(x, h);
    NoTokenInShort(y, h);
    JoinFree(x, sep, y, h);
  }

  lemma NoTokenInStatus(s: Status, h: string)
    requires Token(h)
    ensures !Mentions(StatusName(s), h)
  {
    if s == Queued { NoTokenInWords("queued_to_bridge", "queued", '_', "to_bridge", h); }
    else { NoTokenInShort(StatusName(s), h); }
  }

  lemma NoTokenInPending(h: string)
    requires Token(h)
    ensures !Mentions("pending_bridge_ack", h)
  {
    NoTokenInWords("pending_bridge_ack", "pending", '_', "bridge_ack", h);
  }

  ghost predicate IdsFree(ids: seq<BridgeId>, h: string) {
    forall b | b in ids :: !Mentions(b, h)
  }

  ghost predicate AcksFree(acks: map<BridgeId, AckRecord>, h: string) {
    forall b | b in acks :: !Mentions(b, h) && !Mentions(acks[b].reason, h)
  }

  function Told(id: BridgeId, acks: map<BridgeId, AckRecord>): string {
    if id in acks && acks[id].reason != "" then acks[id].reason else "pending_bridge_ack"
  }

  lemma ToldFree(id: BridgeId, acks: map<BridgeId, AckRecord>, h: string)
    requires Token(h) && AcksFree(acks, h)
    ensures !Mentions(Told(id, acks), h)
  {
    NoTokenInPending(h);
  }

  lemma ReportParts(id: BridgeId, acks: map<BridgeId, AckRecord>)
    ensures id + Report(id, acks) == id + [':'] + StatusName(RecordedStatus(acks, id)) + [':'] + Told(id, acks)
  {
    var name := StatusName(RecordedStatus(acks, id));
    assert Report(id, acks) == ":" + name + ":" + Told(id, acks);
    ColonsBetween(id, name, Told(id, acks));
  }

  lemma ColonsBetween(x: string, y: string, z: string)
    ensures x + (":" + y + ":" + z) == x + [':'] + y + [':'] + z
  {
  }

  lemma ReportFree(id: BridgeId, acks: map<BridgeId, AckRecord>, h: string)
    requires Token(h) && !Mentions(id, h) && AcksFree(acks, h)
    ensures !Mentions(id + Report(id, acks), h)
  {
    NoTokenInStatus(RecordedStatus(acks, id), h);
    ToldFree(id, acks, h);
    ReportParts(id, acks);
    ThreeFree(id, StatusName(RecordedStatus(acks, id)), Told(id, acks), h);
  }

  lemma ThreeFree(x: string, y: string, z: string, h: string)
    requires Token(h) && !Mentions(x, h) && !Mentions(y, h) && !Mentions(z, h)
    ensures !Mentions(x + [':'] + y + [':'] + z, h)
  {
    JoinFree(x, ':', y, h);
    JoinFree(x + [':'] + y, ':', z, h);
  }

  lemma FirstAndRestFree(ids: seq<BridgeId>, h: string)
    requires ids != [] && IdsFree(ids, h)
    ensures !Mentions(ids[0], h) && IdsFree(ids[1..], h)
  {
    assert ids[0] in ids;
    forall b | b in ids[1..] ensures !Mentions(b, h) { assert b in ids; }
  }

  lemma {:induction false} JoinPartsFree(ids: seq<BridgeId>, acks: map<BridgeId, AckRecord>, h: string)
    requires Token(h) && IdsFree(ids, h) && AcksFree(acks, h)
    ensures !Mentions(JoinParts(ids, acks), h)
  {
    if ids == [] {
      NoTokenInShort(JoinParts(ids, acks), h);
    } else {
      FirstAndRestFree(ids, h);
      ReportFree(ids[0], acks, h);
      if |ids| == 1 {
        JoinedLast(ids, acks);
      } else {
        JoinPartsFree(ids[1..], acks, h);
        JoinFree(ids[0] + Report(ids[0], acks), ';', JoinParts(ids[1..], acks), h);
        JoinedMore(ids, acks);
      }
    }
  }

  lemma SummaryFree(ids: seq<BridgeId>, acks: map<BridgeId, AckRecord>, h: string)
    requires Token(h) && IdsFree(ids, h) && AcksFree(acks, h)
    ensures !Mentions(Summary(ids, acks), h)
  {
    var head := "bridge_ack_parts";
    NoTokenInWords(head, "bridge", '_', "ack_parts", h);
    NoTokenInShort("empty", h);
    JoinPartsFree(ids, acks, h);
    JoinFree(head, ':', "empty", h);
    JoinFree(head, ':', JoinParts(ids, acks), h);
    assert head + ":" + "empty" == "bridge_ack_parts:empty";
    assert head + ":" + JoinParts(ids, acks) == "bridge_ack_parts:" + JoinParts(ids, acks);
  }

  /** A summary with what is said of the local parts. */
  lemma WithLocalFree(summary: string, local: string, h: string)
    requires Token(h) && !Mentions(summary, h) && !Mentions(local, h)
    ensures !Mentions(summary + ";local_parts:" + local, h)
  {
    NoTokenInShort("local_parts", h);
    JoinFree("local_parts", ':', local, h);
    JoinFree(summary, ';', "local_parts" + ":" + local, h);
    assert summary + ";" + ("local_parts" + ":" + local) == summary + ";local_parts:" + local;
  }

  lemma LocalReasonFree(q: QueueItem, h: string)
    requires Token(h) && !Mentions(q.resultReason, h)
    ensures !Mentions(LocalReason(q), h)
  {
    NoTokenInWords("local_part_failed", "local", '_', "part_failed", h);
  }

  lemma ReasonForms(q: QueueItem, a: Ack)
    ensures var summary := Summary(ExpectedIds(q, a), AcksWith(q.acks, a));
            NextReason(q, a) == a.reason || NextReason(q, a) == summary
            || NextReason(q, a) == summary + ";local_parts:" + LocalReason(q)
  {
  }

  /** The note that the next ack would leave has no token that no id, reason or earlier note has. */
  lemma NextReasonFree(q: QueueItem, a: Ack, h: string)
    requires Token(h) && IdsFree(q.bridgeIds, h) && AcksFree(q.acks, h) && !Mentions(q.resultReason, h)
    requires !Mentions(a.id, h) && !Mentions(a.reason, h)
    ensures !Mentions(NextReason(q, a), h)
  {
    SummaryFree(ExpectedIds(q, a), AcksWith(q.acks, a), h);
    LocalReasonFree(q, h);
    WithLocalFree(Summary(ExpectedIds(q, a), AcksWith(q.acks, a)), LocalReason(q), h);
    ReasonForms(q, a);
  }

  lemma {:induction false} JoinNamesFree(ss: seq<Status>, h: string)
    requires Token(h)
    ensures !Mentions(JoinNames(ss), h)
  {
    if ss == [] {
      NoTokenInShort("", h);
    } else {
      NoTokenInStatus(ss[0], h);
      if |ss| > 1 {
        JoinNamesFree(ss[1..], h);
        JoinFree(StatusName(ss[0]), ',', JoinNames(ss[1..]), h);
      }
    }
  }

  lemma TaskSummaryFree(t: SendTask, a: Ack, h: string)
    requires Token(h) && IdsFree(t.bridgeIds, h) && AcksFree(t.acks, h) && !Mentions(t.sendReason, h)
    requires !Mentions(a.id, h) && !Mentions(a.reason, h)
    ensures !Mentions(TaskSummary(t, a), h)
  {
    var ids, acks := TaskExpectedIds(t, a), AcksWith(t.acks, a);
    SummaryFree(ids, acks, h);
    JoinNamesFree(TaskLocal(t), h);
    WithLocalFree(Summary(ids, acks), if t.sendReason != "" then t.sendReason else JoinNames(TaskLocal(t)), h);
  }
}
