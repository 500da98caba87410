/** By what ids, annotations, links, titles and texts of ledger entries are recognised, told without the functions
    that recognise them. */
module LedgerIdentity {
  import opened LedgerEntries
  import opened LedgerMerge
  import opened Redelivery

  // ---------------------------------------------------------------- ids

  /** `r` is the short form of an id that names its origin: what follows the last colon. */
  ghost predicate ShortForm(t: string, r: string) {
    && ("weflow:message:" <= t || "hook:" <= t) && r != "" && ':' !in r
    && exists i :: 0 <= i < |t| && t[i] == ':' && t[i + 1..] == r
  }

  lemma {:induction false} TailExactly(t: string)
    ensures ':' !in AfterLastColon(t)
    ensures ':' in t ==> exists i :: 0 <= i < |t| && t[i] == ':' && t[i + 1..] == AfterLastColon(t)
  {
    if t != "" && t[|t| - 1] != ':' {
      var front := t[..|t| - 1];
      TailExactly(front);
      if ':' in t {
        assert t == front + [t[|t| - 1]];
        var i :| 0 <= i < |front| && front[i] == ':' && front[i + 1..] == AfterLastColon(front);
        assert t[i] == ':' && t[i + 1..] == front[i + 1..] + [t[|t| - 1]];
      }
    } else if t != "" {
      assert t[|t| - 1] == ':' && t[|t|..] == "";
    }
  }

  lemma TailHas(t: string, i: nat)
    requires i < |t|
    ensures forall j | i < j < |t| :: t[j] in t[i + 1..]
  {
    forall j | i < j < |t| ensures t[j] in t[i + 1..] { assert t[i + 1..][j - i - 1] == t[j]; }
  }

  lemma OneTail(t: string, i: nat, j: nat)
    requires i < |t| && j < |t| && t[i] == ':' && t[j] == ':' && ':' !in t[i + 1..] && ':' !in t[j + 1..]
    ensures i == j
  {
    TailHas(t, i);
    TailHas(t, j);
  }

  ghost predicate FormOf(t: string, x: string) {
    (x == t && t != "") || ShortForm(t, x)
  }

  lemma VariantsExactly(t: string)
    ensures forall x :: x in Variants(t) <==> FormOf(t, x)
  {
    if "weflow:message:" <= t || "hook:" <= t {
      assert ':' in t by { assert "hook:" <= t ==> t[4] == ':'; assert "weflow:message:" <= t ==> t[6] == ':'; }
      TailExactly(t);
      var i :| 0 <= i < |t| && t[i] == ':' && t[i + 1..] == AfterLastColon(t);
      forall x | ShortForm(t, x) ensures x == AfterLastColon(t) {
        var j :| 0 <= j < |t| && t[j] == ':' && t[j + 1..] == x;
        OneTail(t, i, j);
      }
    }
  }

  lemma {:induction false} ExpandExactly(ids: seq<string>)
    ensures forall x :: x in Expand(ids) <==> exists t | t in ids :: FormOf(t, x)
  {
    if ids != [] {
      assert ids == [ids[0]] + ids[1..];
      VariantsExactly(ids[0]);
      ExpandExactly(ids[1..]);
      forall x ensures x in Expand(ids) <==> exists t | t in ids :: FormOf(t, x) {
        if t :| t in ids && FormOf(t, x) { assert t == ids[0] || t in ids[1..]; }
        if x in Expand(ids[1..]) { var t :| t in ids[1..] && FormOf(t, x); assert t in ids; }
      }
    }
  }

  /** A message is known by all ids it carries and by their short forms, as long as no more than twenty come up. */
  lemma AliasesExactly(m: Message)
    requires |Expand([m.id] + m.others)| <= 20
    ensures forall x :: x in Aliases(m)
                        <==> exists t | t in [m.id] + m.others :: FormOf(t, x)
  {
    var all := Expand([m.id] + m.others);
    ExpandExactly([m.id] + m.others);
    AppendNewExact([], all);
    AppendNewLength([], all);
  }

  lemma {:induction false} AppendNewLength(ids: seq<string>, more: seq<string>)
    ensures |AppendNew(ids, more)| <= |ids| + |more|
    decreases |more|
  {
    if more != [] { AppendNewLength(if more[0] == "" || more[0] in ids then ids else ids + [more[0]], more[1..]); }
  }

  // ---------------------------------------------------------------- titles

  predicate SameLetter(c: char, d: char) {
    c == d || ('a' <= d <= 'z' && 'A' <= c <= 'Z' && c as int + 32 == d as int)
  }

  /** The text spells the lower-case word in letters of any case. */
  predicate Spells(s: string, word: string) {
    |s| == |word| && forall i | 0 <= i < |s| :: SameLetter(s[i], word[i])
  }

  /** A title that stands for no name, or is an account. */
  predicate Placeholder(s: string) {
    || s == "" || Spells(s, "unknown") || Spells(s, "system") || Spells(s, "none") || Spells(s, "null")
    || "wxid_" <= s || "gh_" <= s || (|s| >= 9 && s[|s| - 9..] == "@chatroom")
  }

  lemma LowerSpells(s: string, word: string)
    requires forall i | 0 <= i < |word| :: 'a' <= word[i] <= 'z'
    ensures Lower(s) == word <==> Spells(s, word)
  {
    if |s| == |word| {
      forall i | 0 <= i < |s| ensures Lower(s)[i] == word[i] <==> SameLetter(s[i], word[i]) {}
    }
  }

  lemma HumanExactly(s: string)
    ensures HumanTitle(s) <==> !Placeholder(s)
  {
    LowerSpells(s, "unknown");
    LowerSpells(s, "system");
    LowerSpells(s, "none");
    LowerSpells(s, "null");
  }

  // ---------------------------------------------------------------- texts

  /** The texts of the blocks that somebody wrote, with blanks between them. */
  function Joined(blocks: seq<Block>): string {
    if blocks == [] then ""
    else
      var front, last := Joined(blocks[..|blocks| - 1]), blocks[|blocks| - 1];
      if "annotation" <= last.kind || "attachment" <= last.kind || last.text == "" then front
      else if front == "" then last.text
      else front + " " + last.text
  }

  /** An echo is compared with the whole authored text. */
  lemma {:induction false} PrimaryIsJoined(blocks: seq<Block>)
    ensures PrimaryText(blocks) == Joined(blocks)
  {
    if blocks != [] {
      var front, last := blocks[..|blocks| - 1], blocks[|blocks| - 1];
      assert blocks == front + [last];
      PrimaryIsJoined(front);
      PrimaryOfSnoc(front, last);
    }
  }

  lemma {:induction false} PrimaryOfSnoc(blocks: seq<Block>, last: Block)
    ensures PrimaryText(blocks + [last])
            == if !Authored(last) then PrimaryText(blocks)
               else if PrimaryText(blocks) == "" then last.text
               else PrimaryText(blocks) + " " + last.text
  {
    if blocks != [] {
      assert (blocks + [last])[1..] == blocks[1..] + [last];
      PrimaryOfSnoc(blocks[1..], last);
    }
  }

  // ---------------------------------------------------------------- annotations

  /** The name under which an annotation is recognised: its own id, or the id of its link, or its source. */
  predicate Named(b: Block, name: string) {
    || (b.annotationId != "" && b.annotationId == name)
    || (b.annotationId == "" && b.urlId != "" && b.urlId == name)
    || (b.annotationId == "" && b.urlId == "" && b.sourceRef == name)
  }

  ghost predicate SameAnnotation(b: Block, c: Block) {
    b.kind == c.kind && exists name :: Named(b, name) && Named(c, name)
  }

  lemma IdentityExactly(b: Block, c: Block)
    ensures Identity(b) == Identity(c) <==> SameAnnotation(b, c)
  {
    assert Named(b, Identity(b).1) && Named(c, Identity(c).1);
  }

  /** A merge loses no annotation, and keeps none that is there already. */
  lemma AnnotationsOnce(candidate: seq<Block>, existing: seq<Block>)
    ensures var r := MergeBlocks(candidate, existing);
            && candidate <= r
            && (forall b | b in existing && "annotation:" <= b.kind :: exists u | u in r :: SameAnnotation(b, u))
            && (forall i, j | 0 <= i < j < |r| && |candidate| <= j :: !SameAnnotation(r[i], r[j]))
  {
    var r, kept := MergeBlocks(candidate, existing), KeptBlocks(Identities(candidate), existing);
    AnnotationsKept(candidate, existing);
    KeptBlocksExact(Identities(candidate), existing);
    forall b | b in existing && "annotation:" <= b.kind ensures exists u | u in r :: SameAnnotation(b, u) {
      assert IsAnnotation(b) && Identity(b) in Identities(r);
      var u :| u in r && Identity(u) == Identity(b);
      IdentityExactly(b, u);
    }
    forall i, j | 0 <= i < j < |r| && |candidate| <= j ensures !SameAnnotation(r[i], r[j]) {
      IdentityExactly(r[i], r[j]);
      assert r[j] == kept[j - |candidate|] && r[j] in kept;
      if i < |candidate| {
        assert r[i] == candidate[i] && r[i] in candidate;
      } else {
        assert r[i] == kept[i - |candidate|];
      }
    }
  }

  // ---------------------------------------------------------------- links

  /** The address under which a link is recognised: its id, or else its text. */
  predicate At(l: Link, address: string) {
    address != "" && (l.urlId == address || (l.urlId == "" && l.url == address))
  }

  ghost predicate SameAddress(k: Link, l: Link) {
    exists address :: At(k, address) && At(l, address)
  }

  lemma KeyExactly(k: Link, l: Link)
    ensures LinkKey(k) == LinkKey(l) != "" <==> SameAddress(k, l)
    ensures LinkKey(k) == "" <==> forall address :: !At(k, address)
  {
    assert LinkKey(k) != "" ==> At(k, LinkKey(k));
    assert LinkKey(l) != "" ==> At(l, LinkKey(l));
  }

  /** Of the old links a merge keeps those whose address the message has not, the first of each address, if they
      are not pending. */
  lemma LinksOnce(found: seq<Link>, prior: seq<Link>)
    ensures var kept := MergeLinks(found, prior)[|found|..];
            && (forall l | l in kept ::
                  l in prior && l.status !in ["", "pending"] && forall k | k in found :: !SameAddress(k, l))
            && (forall i, j | 0 <= i < j < |kept| :: !SameAddress(kept[i], kept[j]))
            && (forall l | l in prior && l.status !in ["", "pending"] && (exists address :: At(l, address)) ::
                  exists k | k in found + kept :: SameAddress(k, l))
  {
    var kept := MergeLinks(found, prior)[|found|..];
    assert kept == KeptLinks(Keys(found), prior);
    KeptLinksExact(Keys(found), prior);
    forall l, k | l in kept && k in found ensures !SameAddress(k, l) { KeyExactly(k, l); }
    forall i, j | 0 <= i < j < |kept| ensures !SameAddress(kept[i], kept[j]) { KeyExactly(kept[i], kept[j]); }
    forall l | l in prior && l.status !in ["", "pending"] && (exists address :: At(l, address))
      ensures exists k | k in found + kept :: SameAddress(k, l)
    {
      KeyExactly(l, l);
      assert LinkKey(l) in Keys(found) + Keys(kept);
      var k :| k in found + kept && LinkKey(k) == LinkKey(l);
      KeyExactly(k, l);
    }
  }
}
