/** The entries of one conversation's ledger, and what delivering a pulled message does to them.

  Hashes are injective here: an entry's key is the text that is hashed, a link's id is a nonempty
  string that names its address. */
module LedgerEntries {
  import opened Wrappers

  datatype Role = User | Self | Assistant

  /** A text block; `text` is in the normal form that echoes are compared in. */
  datatype Block = Block(kind: string, sourceRef: string, annotationId: string, urlId: string, text: string)

  datatype Link = Link(urlId: string, url: string, status: string, note: string)

  /** The send record as far as deliveries look at it. */
  datatype Send = Send(status: string, echoId: string, rest: string)

  /** `facts` stands for everything a merge takes over from the message unread: session, conversation
      type, sender, time of receipt, quote, attachments and source. */
  datatype Entry = Entry(
    key: string, messageId: string, messageIds: seq<string>, dedupeKey: string, sequence: int, role: Role,
    status: string, title: string, blocks: seq<Block>, links: seq<Link>, send: Send, facts: string)

  /** `others` are the further ids a message carries in its metadata, in the order they are looked up. */
  datatype Message = Message(
    id: string, others: seq<string>, dedupeKey: string, isSelf: bool, title: string, text: string,
    blocks: seq<Block>, links: seq<Link>, facts: string)

  // ---------------------------------------------------------------- ids and aliases

  function AfterLastColon(t: string): string {
    if t == "" then ""
    else if t[|t| - 1] == ':' then ""
    else AfterLastColon(t[..|t| - 1]) + [t[|t| - 1]]
  }

  /** The forms under which one id is stored. */
  function Variants(t: string): seq<string> {
    if t == "" then []
    else if ("weflow:message:" <= t || "hook:" <= t) && AfterLastColon(t) !in ["", t] then [t, AfterLastColon(t)]
    else [t]
  }

  function Expand(ids: seq<string>): seq<string> {
    if ids == [] then [] else Variants(ids[0]) + Expand(ids[1..])
  }

  /** Append the nonempty ids that are not listed yet. */
  function AppendNew(ids: seq<string>, more: seq<string>): seq<string>
    decreases |more|
  {
    if more == [] then ids
    else AppendNew(if more[0] == "" || more[0] in ids then ids else ids + [more[0]], more[1..])
  }

  const ID_LIMIT: nat := 20

  function LastIds(ids: seq<string>): seq<string> {
    if |ids| <= ID_LIMIT then ids else ids[|ids| - ID_LIMIT..]
  }

  function Aliases(m: Message): seq<string> {
    LastIds(AppendNew([], Expand([m.id] + m.others)))
  }

  /** Under which ids an entry is found. */
  function EntryIds(e: Entry): seq<string> {
    AppendNew(if e.messageId == "" then [] else [e.messageId], e.messageIds)
  }

  function MergedIds(e: Entry, m: Message): seq<string> {
    LastIds(AppendNew(EntryIds(e), Expand(Aliases(m))))
  }

  // ---------------------------------------------------------------- titles

  function Lower(s: string): string {
    seq(|s|, i requires 0 <= i < |s| => if 'A' <= s[i] <= 'Z' then s[i] + 32 as char else s[i])
  }

  predicate EndsWith(s: string, tail: string) {
    |tail| <= |s| && s[|s| - |tail|..] == tail
  }

  predicate HumanTitle(s: string) {
    && s != "" && Lower(s) !in ["unknown", "system", "none", "null"]
    && !("wxid_" <= s) && !("gh_" <= s) && !EndsWith(s, "@chatroom")
  }

  function PreferredTitle(had: string, incoming: string): string {
    if had == "" then incoming
    else if incoming == "" then had
    else if !HumanTitle(incoming) && HumanTitle(had) then had
    else incoming
  }

  // ---------------------------------------------------------------- preserved blocks

  predicate IsAnnotation(b: Block) {
    "annotation:" <= b.kind
  }

  function Identity(b: Block): (string, string) {
    (b.kind, if b.annotationId != "" then b.annotationId else if b.urlId != "" then b.urlId else b.sourceRef)
  }

  function Identities(blocks: seq<Block>): set<(string, string)> {
    set b | b in blocks :: Identity(b)
  }

  /** The annotations that are not seen yet, the first of each identity. */
  function KeptBlocks(seen: set<(string, string)>, existing: seq<Block>): seq<Block>
    decreases |existing|
  {
    if existing == [] then []
    else if !IsAnnotation(existing[0]) || Identity(existing[0]) in seen then KeptBlocks(seen, existing[1..])
    else [existing[0]] + KeptBlocks(seen + {Identity(existing[0])}, existing[1..])
  }

  function MergeBlocks(candidate: seq<Block>, existing: seq<Block>): seq<Block> {
    candidate + KeptBlocks(Identities(candidate), existing)
  }

  // ---------------------------------------------------------------- preserved links

  function LinkKey(l: Link): string {
    if l.urlId != "" then l.urlId else l.url
  }

  function Keys(links: seq<Link>): set<string> {
    set l | l in links && LinkKey(l) != "" :: LinkKey(l)
  }

  /** The last link with the key. */
  function LastWith(links: seq<Link>, key: string): (r: Option<Link>)
    ensures r.Some? ==> r.value in links && LinkKey(r.value) == key
    ensures r.None? ==> forall l | l in links :: LinkKey(l) != key
  {
    if links == [] then None
    else if LinkKey(links[|links| - 1]) == key then Some(links[|links| - 1])
    else
      assert links == links[..|links| - 1] + [links[|links| - 1]];
      LastWith(links[..|links| - 1], key)
  }

  /** What was known about an address wins over the link just found, except for the address itself. */
  function Refreshed(item: Link, prior: seq<Link>): Link {
    if LinkKey(item) == "" then item
    else match LastWith(prior, LinkKey(item))
      case None => item
      case Some(p) => p.(url := if item.url != "" then item.url else p.url)
  }

  /** Nothing was found out about the address yet. */
  predicate StillPending(l: Link) {
    l.status == "" || l.status == "pending"
  }

  /** The links that are not pending and not seen yet, the first of each key. */
  function KeptLinks(seen: set<string>, prior: seq<Link>): seq<Link>
    decreases |prior|
  {
    if prior == [] then []
    else if LinkKey(prior[0]) == "" || LinkKey(prior[0]) in seen || StillPending(prior[0]) then
      KeptLinks(seen, prior[1..])
    else [prior[0]] + KeptLinks(seen + {LinkKey(prior[0])}, prior[1..])
  }

  function RefreshedAll(found: seq<Link>, prior: seq<Link>): (r: seq<Link>)
    ensures |r| == |found| && forall i | 0 <= i < |r| :: r[i] == Refreshed(found[i], prior)
  {
    seq(|found|, i requires 0 <= i < |found| => Refreshed(found[i], prior))
  }

  function MergeLinks(found: seq<Link>, prior: seq<Link>): seq<Link> {
    RefreshedAll(found, prior) + KeptLinks(Keys(found), prior)
  }

  // ---------------------------------------------------------------- candidate and merge

  function NewEntry(m: Message, registryTitle: string, sequence: int): Entry {
    Entry(m.id, m.id, Aliases(m), m.dedupeKey, sequence, if m.isSelf then Self else User, "active",
          PreferredTitle(registryTitle, m.title), m.blocks, m.links, Send("", "", ""), m.facts)
  }

  function OrElse(s: string, other: string): string {
    if s != "" then s else other
  }

  function Merge(e: Entry, m: Message, registryTitle: string): Entry {
    var c := NewEntry(m, registryTitle, e.sequence);
    c.(key := OrElse(e.key, c.key), messageId := OrElse(e.messageId, c.messageId), messageIds := MergedIds(e, m),
       title := PreferredTitle(e.title, c.title), status := OrElse(e.status, c.status),
       blocks := MergeBlocks(c.blocks, e.blocks), links := MergeLinks(c.links, e.links), send := e.send)
  }

  /** Ids and times do not count as a change. */
  predicate Changed(e: Entry, u: Entry) {
    e.(key := u.key, messageId := u.messageId, messageIds := u.messageIds, sequence := u.sequence) != u
  }

  // ---------------------------------------------------------------- finding entries

  /** The first entry from `i` on with the property. */
  function FirstFrom(entries: seq<Entry>, p: Entry -> bool, i: nat): (r: Option<nat>)
    requires i <= |entries|
    ensures r.Some? ==> i <= r.value < |entries| && p(entries[r.value]) && forall k | i <= k < r.value :: !p(entries[k])
    ensures r.None? ==> forall k | i <= k < |entries| :: !p(entries[k])
    decreases |entries| - i
  {
    if i == |entries| then None else if p(entries[i]) then Some(i) else FirstFrom(entries, p, i + 1)
  }

  function FindById(entries: seq<Entry>, id: string): Option<nat> {
    FirstFrom(entries, (e: Entry) => id in EntryIds(e), 0)
  }

  function FindByDedupe(entries: seq<Entry>, dedupeKey: string): Option<nat> {
    if dedupeKey == "" then None
    else FirstFrom(entries, (e: Entry) => e.role != Assistant && e.dedupeKey == dedupeKey, 0)
  }

  predicate Authored(b: Block) {
    !("annotation" <= b.kind) && !("attachment" <= b.kind) && b.text != ""
  }

  /** The authored text of an entry, in normal form. */
  function PrimaryText(blocks: seq<Block>): string {
    if blocks == [] then ""
    else if !Authored(blocks[0]) then PrimaryText(blocks[1..])
    else if PrimaryText(blocks[1..]) == "" then blocks[0].text
    else blocks[0].text + " " + PrimaryText(blocks[1..])
  }

  predicate EchoMatches(e: Entry, m: Message) {
    && e.role == Assistant && e.send.status in ["queued_to_bridge", "accepted", "sent"]
    && (e.send.echoId == "" || e.send.echoId == m.id)
    && PrimaryText(e.blocks) == m.text
  }

  const ECHO_LOOKBACK: nat := 40

  /** The last of the entries `lo..hi` that the message can be an echo of. */
  function LastEcho(entries: seq<Entry>, m: Message, lo: nat, hi: nat): (r: Option<nat>)
    requires lo <= hi <= |entries|
    ensures r.Some? ==> lo <= r.value < hi && EchoMatches(entries[r.value], m)
    ensures r.Some? ==> forall k | r.value < k < hi :: !EchoMatches(entries[k], m)
    ensures r.None? ==> forall k | lo <= k < hi :: !EchoMatches(entries[k], m)
    decreases hi - lo
  {
    if lo == hi then None
    else if EchoMatches(entries[hi - 1], m) then Some(hi - 1)
    else LastEcho(entries, m, lo, hi - 1)
  }

  function FindEcho(entries: seq<Entry>, m: Message): Option<nat> {
    if !m.isSelf || m.text == "" then None
    else LastEcho(entries, m, if |entries| <= ECHO_LOOKBACK then 0 else |entries| - ECHO_LOOKBACK, |entries|)
  }

  // ---------------------------------------------------------------- delivering a message

  datatype Verdict = Created | Updated | Duplicate | EchoConfirmed

  /** The new list, what happened, and at which position. */
  datatype Delivery = Delivery(entries: seq<Entry>, verdict: Verdict, at: nat)

  function MaxSequence(entries: seq<Entry>): int {
    if entries == [] then 0
    else
      var rest := MaxSequence(entries[..|entries| - 1]);
      if entries[|entries| - 1].sequence > rest then entries[|entries| - 1].sequence else rest
  }

  function NextSequence(entries: seq<Entry>): int {
    MaxSequence(entries) + 1
  }

  /** Every entry with the key is replaced. */
  function Rewritten(entries: seq<Entry>, key: string, e: Entry): (r: seq<Entry>)
    ensures |r| == |entries| && forall i | 0 <= i < |r| :: r[i] == if entries[i].key == key then e else entries[i]
  {
    seq(|entries|, i requires 0 <= i < |entries| => if entries[i].key == key then e else entries[i])
  }

  function Upserted(entries: seq<Entry>, m: Message, registryTitle: string, at: nat): (d: Delivery)
    requires at < |entries|
    ensures d.at == at && |d.entries| == |entries|
  {
    var u := Merge(entries[at], m, registryTitle);
    if !Changed(entries[at], u) then Delivery(entries, Duplicate, at)
    else Delivery(Rewritten(entries, entries[at].key, u), Updated, at)
  }

  function Echoed(e: Entry, m: Message): Entry {
    e.(send := e.send.(status := "sent", echoId := m.id))
  }

  function Deliver(entries: seq<Entry>, m: Message, registryTitle: string): (d: Delivery)
    ensures d.at < |d.entries| == if d.verdict == Created then |entries| + 1 else |entries|
  {
    var known := FindById(entries, m.id);
    if known.Some? then Upserted(entries, m, registryTitle, known.value)
    else
      var echo := FindEcho(entries, m);
      if echo.Some? then
        Delivery(Rewritten(entries, entries[echo.value].key, Echoed(entries[echo.value], m)), EchoConfirmed, echo.value)
      else
        var same := FindByDedupe(entries, m.dedupeKey);
        if same.Some? then Upserted(entries, m, registryTitle, same.value)
        else Delivery(entries + [NewEntry(m, registryTitle, NextSequence(entries))], Created, |entries|)
  }

  ghost predicate KeysDistinct(entries: seq<Entry>) {
    && (forall i | 0 <= i < |entries| :: entries[i].key != "")
    && (forall i, j | 0 <= i < j < |entries| :: entries[i].key != entries[j].key)
  }

  lemma RewrittenAt(entries: seq<Entry>, at: nat, e: Entry)
    requires KeysDistinct(entries) && at < |entries|
    ensures Rewritten(entries, entries[at].key, e) == entries[at := e]
  {
  }
}
