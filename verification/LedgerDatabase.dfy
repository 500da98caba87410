/** The SQLite authority behind the conversation ledgers: one table of rows with a primary key
    (conversation, entry) and a unique index (conversation, sequence), always read in sequence order. */
module LedgerDatabase {
  import opened LedgerEntries

  datatype Row = Row(conversation: string, entry: Entry)

  function RowsOf(rows: seq<Row>, conversation: string): seq<Entry> {
    if rows == [] then []
    else
      var rest := RowsOf(rows[..|rows| - 1], conversation);
      var last := rows[|rows| - 1];
      if last.conversation == conversation then rest + [last.entry] else rest
  }

  // ---------------------------------------------------------------- reading in order

  predicate InOrder(entries: seq<Entry>) {
    forall i, j | 0 <= i < j < |entries| :: entries[i].sequence < entries[j].sequence
  }

  function Insert(entries: seq<Entry>, e: Entry): seq<Entry> {
    if entries == [] || entries[|entries| - 1].sequence < e.sequence then entries + [e]
    else Insert(entries[..|entries| - 1], e) + [entries[|entries| - 1]]
  }

  function Sorted(entries: seq<Entry>): seq<Entry> {
    if entries == [] then [] else Insert(Sorted(entries[..|entries| - 1]), entries[|entries| - 1])
  }

  function Listed(rows: seq<Row>, conversation: string): seq<Entry> {
    Sorted(RowsOf(rows, conversation))
  }

  /** The unique index. */
  predicate SequencesDiffer(entries: seq<Entry>) {
    forall i, j | 0 <= i < j < |entries| :: entries[i].sequence != entries[j].sequence
  }

  lemma {:induction false} InsertMembers(entries: seq<Entry>, e: Entry)
    ensures |Insert(entries, e)| == |entries| + 1 && forall x :: x in Insert(entries, e) <==> x in entries || x == e
  {
    if entries != [] {
      assert entries == entries[..|entries| - 1] + [entries[|entries| - 1]];
      if entries[|entries| - 1].sequence >= e.sequence { InsertMembers(entries[..|entries| - 1], e); }
    }
  }

  lemma InOrderSnoc(front: seq<Entry>, last: Entry)
    requires InOrder(front) && forall x | x in front :: x.sequence < last.sequence
    ensures InOrder(front + [last])
  {
  }

  lemma LastIsLargest(front: seq<Entry>, last: Entry)
    requires InOrder(front + [last])
    ensures InOrder(front) && forall x | x in front :: x.sequence < last.sequence
  {
    var all := front + [last];
    assert forall i | 0 <= i < |front| :: all[i] == front[i];
    assert all[|front|] == last;
  }

  lemma {:induction false} InsertExact(entries: seq<Entry>, e: Entry)
    requires InOrder(entries) && forall x | x in entries :: x.sequence != e.sequence
    ensures InOrder(Insert(entries, e)) && |Insert(entries, e)| == |entries| + 1
    ensures forall x :: x in Insert(entries, e) <==> x in entries || x == e
  {
    InsertMembers(entries, e);
    if entries != [] {
      var front, last := entries[..|entries| - 1], entries[|entries| - 1];
      assert entries == front + [last];
      LastIsLargest(front, last);
      if last.sequence >= e.sequence {
        assert last in entries;
        InsertExact(front, e);
        InOrderSnoc(Insert(front, e), last);
      } else {
        InOrderSnoc(entries, e);
      }
    }
  }

  lemma {:induction false} SortedExact(entries: seq<Entry>)
    requires SequencesDiffer(entries)
    ensures InOrder(Sorted(entries)) && |Sorted(entries)| == |entries|
    ensures forall x :: x in Sorted(entries) <==> x in entries
  {
    if entries != [] {
      var front, last := entries[..|entries| - 1], entries[|entries| - 1];
      assert entries == front + [last];
      SortedExact(front);
      InsertExact(Sorted(front), last);
    }
  }

  lemma HeadIsMember(entries: seq<Entry>)
    ensures entries != [] ==> entries[0] in entries
  {
  }

  /** An ordered list is determined by its elements. */
  lemma {:induction false} OrderedUnique(a: seq<Entry>, b: seq<Entry>)
    requires InOrder(a) && InOrder(b) && forall x :: x in a <==> x in b
    ensures a == b
  {
    if a == [] {
      HeadIsMember(b);
    } else {
      assert a[|a| - 1] in b;
      var last := b[|b| - 1];
      assert last in a;
      var front, front' := a[..|a| - 1], b[..|b| - 1];
      assert a == front + [a[|a| - 1]] && b == front' + [last];
      assert a[|a| - 1].sequence == last.sequence;
      forall x ensures x in front <==> x in front' {
        assert x in front ==> x in a && x.sequence < last.sequence;
        assert x in front' ==> x in b && x.sequence < last.sequence;
      }
      OrderedUnique(front, front');
    }
  }

  // ---------------------------------------------------------------- writing

  function IndexOf(rows: seq<Row>, conversation: string, key: string): (i: nat)
    ensures i <= |rows|
    ensures i < |rows| ==> rows[i].conversation == conversation && rows[i].entry.key == key
    ensures forall k | 0 <= k < i :: rows[k].conversation != conversation || rows[k].entry.key != key
  {
    if rows == [] then 0
    else if rows[0].conversation == conversation && rows[0].entry.key == key then 0
    else 1 + IndexOf(rows[1..], conversation, key)
  }

  /** Would the unique index refuse the row? */
  predicate Taken(rows: seq<Row>, conversation: string, e: Entry) {
    exists i | 0 <= i < |rows| ::
      rows[i].conversation == conversation && rows[i].entry.key != e.key && rows[i].entry.sequence == e.sequence
  }

  function WithRow(rows: seq<Row>, conversation: string, e: Entry): seq<Row> {
    var i := IndexOf(rows, conversation, e.key);
    if i < |rows| then rows[i := Row(conversation, e)] else rows + [Row(conversation, e)]
  }

  function Deleted(rows: seq<Row>, conversation: string): seq<Row> {
    if rows == [] then []
    else
      var rest := Deleted(rows[..|rows| - 1], conversation);
      if rows[|rows| - 1].conversation == conversation then rest else rest + [rows[|rows| - 1]]
  }

  lemma {:induction false} RowsOfExact(rows: seq<Row>, conversation: string)
    ensures forall e :: e in RowsOf(rows, conversation) <==> Row(conversation, e) in rows
  {
    if rows != [] {
      assert rows == rows[..|rows| - 1] + [rows[|rows| - 1]];
      RowsOfExact(rows[..|rows| - 1], conversation);
    }
  }

  lemma {:induction false} DeletedRows(rows: seq<Row>, conversation: string, c: string)
    ensures RowsOf(Deleted(rows, conversation), c) == if c == conversation then [] else RowsOf(rows, c)
  {
    if rows != [] {
      var front := rows[..|rows| - 1];
      DeletedRows(front, conversation, c);
      if rows[|rows| - 1].conversation != conversation {
        RowsOfSnoc(Deleted(front, conversation), rows[|rows| - 1], c);
      }
    }
  }

  lemma RowsOfSnoc(rows: seq<Row>, last: Row, c: string)
    ensures RowsOf(rows + [last], c) == RowsOf(rows, c) + if last.conversation == c then [last.entry] else []
  {
    assert (rows + [last])[..|rows|] == rows;
  }

  /** Both constraints of the table, for all conversations. */
  ghost predicate Constrained(rows: seq<Row>) {
    forall i, j | 0 <= i < j < |rows| && rows[i].conversation == rows[j].conversation ::
      rows[i].entry.key != rows[j].entry.key && rows[i].entry.sequence != rows[j].entry.sequence
  }

  lemma {:induction false} ConstrainedRows(rows: seq<Row>, c: string)
    requires Constrained(rows)
    ensures SequencesDiffer(RowsOf(rows, c))
    ensures forall i, j | 0 <= i < j < |RowsOf(rows, c)| :: RowsOf(rows, c)[i].key != RowsOf(rows, c)[j].key
  {
    if rows != [] {
      var front, last := rows[..|rows| - 1], rows[|rows| - 1];
      ConstrainedRows(front, c);
      RowsOfExact(front, c);
      if last.conversation == c {
        forall e | e in RowsOf(front, c) ensures e.key != last.entry.key && e.sequence != last.entry.sequence {
          var k :| 0 <= k < |front| && front[k] == Row(c, e);
        }
      }
    }
  }

  /** What a reader of a conversation sees: its rows, in order. */
  lemma ListedExact(rows: seq<Row>, c: string)
    requires Constrained(rows)
    ensures InOrder(Listed(rows, c)) && forall e :: e in Listed(rows, c) <==> Row(c, e) in rows
  {
    ConstrainedRows(rows, c);
    SortedExact(RowsOf(rows, c));
    RowsOfExact(rows, c);
  }

  lemma UpsertConstrained(rows: seq<Row>, conversation: string, e: Entry)
    requires Constrained(rows) && !Taken(rows, conversation, e)
    ensures Constrained(WithRow(rows, conversation, e))
  {
    var i := IndexOf(rows, conversation, e.key);
    var after := WithRow(rows, conversation, e);
    if i < |rows| {
      forall k | 0 <= k < |rows| && k != i && rows[k].conversation == conversation
        ensures rows[k].entry.key != e.key && rows[k].entry.sequence != e.sequence {}
    }
  }

  lemma UpsertMembers(rows: seq<Row>, conversation: string, e: Entry)
    requires Constrained(rows)
    ensures forall r :: r in WithRow(rows, conversation, e) <==>
              r == Row(conversation, e) || (r in rows && !(r.conversation == conversation && r.entry.key == e.key))
  {
    var i := IndexOf(rows, conversation, e.key);
    var after := WithRow(rows, conversation, e);
    forall r | r in rows && !(r.conversation == conversation && r.entry.key == e.key) ensures r in after {
      var k :| 0 <= k < |rows| && rows[k] == r;
      assert after[k] == r;
    }
    assert Row(conversation, e) in after by { if i < |rows| { assert after[i] == Row(conversation, e); } }
  }

  /** The list after an upsert: without the key's row, with the new one, in order; nobody else is affected. */
  lemma UpsertListed(rows: seq<Row>, conversation: string, e: Entry, c: string)
    requires Constrained(rows) && !Taken(rows, conversation, e)
    ensures var after := Listed(WithRow(rows, conversation, e), c);
            && InOrder(after)
            && (c != conversation ==> after == Listed(rows, c))
            && (c == conversation ==> forall x :: x in after <==> x == e || (x in Listed(rows, c) && x.key != e.key))
  {
    UpsertConstrained(rows, conversation, e);
    UpsertMembers(rows, conversation, e);
    ListedExact(rows, c);
    ListedExact(WithRow(rows, conversation, e), c);
    if c != conversation { OrderedUnique(Listed(WithRow(rows, conversation, e), c), Listed(rows, c)); }
  }

  lemma {:induction false} DeletedExact(rows: seq<Row>, conversation: string)
    requires Constrained(rows)
    ensures Constrained(Deleted(rows, conversation))
    ensures forall r :: r in Deleted(rows, conversation) <==> r in rows && r.conversation != conversation
  {
    if rows != [] {
      var front, last := rows[..|rows| - 1], rows[|rows| - 1];
      assert rows == front + [last];
      DeletedExact(front, conversation);
      forall r | r in Deleted(front, conversation) && r.conversation == last.conversation
        ensures r.entry.key != last.entry.key && r.entry.sequence != last.entry.sequence
      {
        var k :| 0 <= k < |front| && front[k] == r;
        assert rows[k] == r;
      }
    }
  }

  /** A list that the table can hold as it is. */
  ghost predicate Storable(entries: seq<Entry>) {
    InOrder(entries) && KeysDistinct(entries)
  }

  /** The index refuses a sequence that another entry of the conversation has, and nothing else. */
  lemma TakenExactly(rows: seq<Row>, conversation: string, e: Entry)
    requires Constrained(rows)
    ensures Taken(rows, conversation, e)
            <==> exists x | x in Listed(rows, conversation) :: x.sequence == e.sequence && x.key != e.key
  {
    ListedExact(rows, conversation);
    forall x | x in Listed(rows, conversation) && x.sequence == e.sequence && x.key != e.key
      ensures Taken(rows, conversation, e)
    {
      assert Row(conversation, x) in rows;
    }
    forall i | 0 <= i < |rows| && rows[i].conversation == conversation
      ensures rows[i].entry in Listed(rows, conversation)
    {
      assert Row(conversation, rows[i].entry) in rows;
    }
  }

  class ConversationLedgerDatabase {
    var rows: seq<Row>
    var segments: map<string, string>

    constructor ()
      ensures rows == [] && segments == map[] && Valid()
    {
      rows, segments := [], map[];
    }

    ghost predicate Valid()
      reads this
    {
      Constrained(rows)
    }

    method ListEntries(conversation: string) returns (entries: seq<Entry>)
      requires Valid()
      ensures entries == Listed(rows, conversation)
      ensures InOrder(entries) && forall e :: e in entries <==> Row(conversation, e) in rows
    {
      ListedExact(rows, conversation);
      entries := Listed(rows, conversation);
    }

    /** Insert, or update the row that has the key.  A blank name or a sequence that another entry of the
        conversation has is refused, and nothing is written. */
    method UpsertEntry(conversation: string, e: Entry) returns (ok: bool)
      requires Valid()
      modifies this`rows
      ensures Valid()
      ensures ok <==> && conversation != "" && e.key != ""
                      && forall x | x in Listed(old(rows), conversation) && x.sequence == e.sequence :: x.key == e.key
      ensures !ok ==> rows == old(rows)
      ensures ok ==> forall x :: x in Listed(rows, conversation)
                                 <==> x == e || (x in Listed(old(rows), conversation) && x.key != e.key)
      ensures forall c | c != conversation :: Listed(rows, c) == Listed(old(rows), c)
    {
      ok := conversation != "" && e.key != "" && !Taken(rows, conversation, e);
      TakenExactly(rows, conversation, e);
      if !ok { return; }
      UpsertConstrained(rows, conversation, e);
      forall c { UpsertListed(rows, conversation, e, c); }
      rows := WithRow(rows, conversation, e);
    }

    /** Delete the conversation's rows and insert the given ones, in one transaction.  What the table can
        hold is read back as it was written. */
    method ReplaceEntries(conversation: string, entries: seq<Entry>) returns (ok: bool)
      requires Valid()
      modifies this`rows
      ensures Valid() && (!ok ==> rows == old(rows))
      ensures ok ==> conversation != ""
      ensures KeysDistinct(entries) && conversation != "" ==> (ok <==> SequencesDiffer(entries))
      ensures KeysDistinct(entries) && ok ==> forall x :: x in Listed(rows, conversation) <==> x in entries
      ensures conversation != "" && Storable(entries) ==> ok && Listed(rows, conversation) == entries
      ensures forall c | c != conversation :: Listed(rows, c) == Listed(old(rows), c)
    {
      if conversation == "" { return false; }
      var work := Deleted(rows, conversation);
      DeletedExact(rows, conversation);
      forall c { DeletedRows(rows, conversation, c); }
      for i := 0 to |entries|
        invariant Constrained(work) && rows == old(rows)
        invariant forall c | c != conversation :: Listed(work, c) == Listed(rows, c)
        invariant KeysDistinct(entries) ==> Inserted(work, conversation, entries, i)
      {
        if KeysDistinct(entries) { NextTaken(work, conversation, entries, i); }
        if entries[i].key == "" || Taken(work, conversation, entries[i]) { return false; }
        forall c { UpsertListed(work, conversation, entries[i], c); }
        UpsertConstrained(work, conversation, entries[i]);
        if KeysDistinct(entries) { NextInserted(work, conversation, entries, i); }
        work := WithRow(work, conversation, entries[i]);
      }
      assert entries[..|entries|] == entries;
      rows := work;
      ok := true;
      ListedExact(rows, conversation);
      if Storable(entries) {
        assert forall i, j | 0 <= i < j < |entries| :: entries[i].sequence < entries[j].sequence;
        OrderedUnique(Listed(rows, conversation), entries);
      }
    }

    /** Name the directory of a conversation; blank names are ignored. */
    method SetSegment(conversation: string, segment: string)
      modifies this`segments
      ensures segments == if conversation == "" || segment == "" then old(segments)
                          else old(segments)[conversation := segment]
    {
      if conversation != "" && segment != "" { segments := segments[conversation := segment]; }
    }

    /** Delete the rows and the segment of one conversation; the flag says whether there was either. */
    method DeleteConversation(conversation: string) returns (deleted: bool)
      requires Valid()
      modifies this
      ensures Valid() && (conversation != "" ==> Listed(rows, conversation) == [])
      ensures segments == if conversation == "" then old(segments) else old(segments) - {conversation}
      ensures deleted
              <==> conversation != "" && (Listed(old(rows), conversation) != [] || conversation in old(segments))
      ensures forall c | c != conversation :: Listed(rows, c) == Listed(old(rows), c)
    {
      if conversation == "" { return false; }
      ConstrainedRows(rows, conversation);
      SortedExact(RowsOf(rows, conversation));
      deleted := RowsOf(rows, conversation) != [] || conversation in segments;
      DeletedExact(rows, conversation);
      forall c { DeletedRows(rows, conversation, c); }
      rows := Deleted(rows, conversation);
      segments := segments - {conversation};
    }
  }

  /** The first `i` entries are in the table and nothing else of the conversation is. */
  ghost predicate Inserted(work: seq<Row>, conversation: string, entries: seq<Entry>, i: nat)
    requires i <= |entries|
  {
    (forall x :: x in Listed(work, conversation) <==> x in entries[..i]) && SequencesDiffer(entries[..i])
  }

  /** The next entry is refused exactly when an earlier one has its sequence. */
  lemma NextTaken(work: seq<Row>, conversation: string, entries: seq<Entry>, i: nat)
    requires Constrained(work) && KeysDistinct(entries) && i < |entries| && Inserted(work, conversation, entries, i)
    ensures entries[i].key != ""
    ensures Taken(work, conversation, entries[i]) <==> !SequencesDiffer(entries[..i + 1])
    ensures Taken(work, conversation, entries[i]) ==> !SequencesDiffer(entries)
  {
    TakenExactly(work, conversation, entries[i]);
    if k :| 0 <= k < i && entries[k].sequence == entries[i].sequence { assert entries[k] in entries[..i]; }
    if x :| x in entries[..i] && x.sequence == entries[i].sequence {
      var k :| 0 <= k < i && entries[k] == x;
      assert entries[..i + 1][k].sequence == entries[..i + 1][i].sequence;
    }
  }

  lemma NextInserted(work: seq<Row>, conversation: string, entries: seq<Entry>, i: nat)
    requires Constrained(work) && KeysDistinct(entries) && i < |entries| && Inserted(work, conversation, entries, i)
    requires !Taken(work, conversation, entries[i])
    ensures Inserted(WithRow(work, conversation, entries[i]), conversation, entries, i + 1)
  {
    UpsertListed(work, conversation, entries[i], conversation);
    NextTaken(work, conversation, entries, i);
    assert entries[..i + 1] == entries[..i] + [entries[i]];
    forall x | x in entries[..i] ensures x.key != entries[i].key { var k :| 0 <= k < i && entries[k] == x; }
  }
}
