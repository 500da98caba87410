/** What merging a message into an existing entry keeps, and why merging twice is merging once. */
module LedgerMerge {
  import opened LedgerEntries

  // ---------------------------------------------------------------- annotations

  lemma {:induction false} KeptBlocksExact(seen: set<(string, string)>, existing: seq<Block>)
    ensures var kept := KeptBlocks(seen, existing);
            && (forall b | b in kept :: b in existing && IsAnnotation(b) && Identity(b) !in seen)
            && (forall i, j | 0 <= i < j < |kept| :: Identity(kept[i]) != Identity(kept[j]))
            && (forall b | b in existing && IsAnnotation(b) :: Identity(b) in seen + Identities(kept))
    decreases |existing|
  {
    if existing != [] {
      var b := existing[0];
      assert existing == [b] + existing[1..];
      if IsAnnotation(b) && Identity(b) !in seen {
        KeptBlocksExact(seen + {Identity(b)}, existing[1..]);
        var rest := KeptBlocks(seen + {Identity(b)}, existing[1..]);
        assert Identities([b] + rest) == {Identity(b)} + Identities(rest) by {
          assert forall x | x in rest :: x in [b] + rest;
          assert b in [b] + rest;
        }
        assert forall x | x in rest :: Identity(x) != Identity(b);
      } else {
        KeptBlocksExact(seen, existing[1..]);
      }
    }
  }

  lemma {:induction false} KeptSkipsSeen(seen: set<(string, string)>, a: seq<Block>, b: seq<Block>)
    requires forall x | x in a :: Identity(x) in seen
    ensures KeptBlocks(seen, a + b) == KeptBlocks(seen, b)
    decreases |a|
  {
    if a == [] {
      assert a + b == b;
    } else {
      assert (a + b)[0] == a[0] && (a + b)[1..] == a[1..] + b;
      assert Identity(a[0]) in seen;
      KeptSkipsSeen(seen, a[1..], b);
    }
  }

  /** Annotations that differ from each other and are new are all kept. */
  lemma {:induction false} KeptAll(seen: set<(string, string)>, a: seq<Block>)
    requires forall x | x in a :: IsAnnotation(x) && Identity(x) !in seen
    requires forall i, j | 0 <= i < j < |a| :: Identity(a[i]) != Identity(a[j])
    ensures KeptBlocks(seen, a) == a
    decreases |a|
  {
    if a != [] {
      assert a == [a[0]] + a[1..];
      forall x | x in a[1..] ensures IsAnnotation(x) && Identity(x) !in seen + {Identity(a[0])} {
        assert x in a;
        var k :| 0 <= k < |a[1..]| && a[1..][k] == x;
        assert x == a[k + 1];
      }
      assert IsAnnotation(a[0]);
      KeptAll(seen + {Identity(a[0])}, a[1..]);
    }
  }

  /** Merging the same candidate again changes nothing. */
  lemma MergeBlocksTwice(candidate: seq<Block>, existing: seq<Block>)
    ensures MergeBlocks(candidate, MergeBlocks(candidate, existing)) == MergeBlocks(candidate, existing)
    ensures MergeBlocks(candidate, candidate) == candidate
  {
    var seen := Identities(candidate);
    var kept := KeptBlocks(seen, existing);
    KeptBlocksExact(seen, existing);
    KeptSkipsSeen(seen, candidate, kept);
    KeptAll(seen, kept);
    KeptSkipsSeen(seen, candidate, []);
    assert candidate + [] == candidate;
  }

  /** No annotation identity is dropped, and every block of the message is there. */
  lemma AnnotationsKept(candidate: seq<Block>, existing: seq<Block>)
    ensures forall b | b in existing && IsAnnotation(b) :: Identity(b) in Identities(MergeBlocks(candidate, existing))
    ensures candidate <= MergeBlocks(candidate, existing)
  {
    var seen := Identities(candidate);
    KeptBlocksExact(seen, existing);
    var kept := KeptBlocks(seen, existing);
    assert Identities(candidate + kept) == seen + Identities(kept) by {
      assert forall x | x in candidate || x in kept :: x in candidate + kept;
    }
  }

  /** The merge as the loop computes it. */
  method MergePreservedTextBlocks(candidate: seq<Block>, existing: seq<Block>) returns (merged: seq<Block>)
    ensures merged == MergeBlocks(candidate, existing)
  {
    merged := candidate;
    var seen := Identities(candidate);
    for i := 0 to |existing|
      invariant merged + KeptBlocks(seen, existing[i..]) == MergeBlocks(candidate, existing)
    {
      assert existing[i..][0] == existing[i] && existing[i..][1..] == existing[i + 1..];
      if IsAnnotation(existing[i]) && Identity(existing[i]) !in seen {
        assert merged + ([existing[i]] + KeptBlocks(seen + {Identity(existing[i])}, existing[i + 1..]))
            == (merged + [existing[i]]) + KeptBlocks(seen + {Identity(existing[i])}, existing[i + 1..]);
        seen := seen + {Identity(existing[i])};
        merged := merged + [existing[i]];
      }
    }
    assert existing[|existing|..] == [];
  }

  // ---------------------------------------------------------------- links

  /** A link without an id has no address either, and links with one id are the same. */
  ghost predicate LinksAgree(links: seq<Link>) {
    && (forall l | l in links :: l.urlId == "" ==> l.url == "")
    && (forall k, l | k in links && l in links && LinkKey(k) == LinkKey(l) != "" :: k == l)
  }

  lemma {:induction false} KeptLinksExact(seen: set<string>, prior: seq<Link>)
    ensures var kept := KeptLinks(seen, prior);
            && (forall l | l in kept :: l in prior && LinkKey(l) != "" && LinkKey(l) !in seen && !StillPending(l))
            && (forall i, j | 0 <= i < j < |kept| :: LinkKey(kept[i]) != LinkKey(kept[j]))
            && (forall l | l in prior && LinkKey(l) != "" && !StillPending(l) :: LinkKey(l) in seen + Keys(kept))
    decreases |prior|
  {
    if prior != [] {
      var l := prior[0];
      assert prior == [l] + prior[1..];
      if LinkKey(l) == "" || LinkKey(l) in seen || StillPending(l) {
        KeptLinksExact(seen, prior[1..]);
      } else {
        KeptLinksExact(seen + {LinkKey(l)}, prior[1..]);
        var rest := KeptLinks(seen + {LinkKey(l)}, prior[1..]);
        assert Keys([l] + rest) == {LinkKey(l)} + Keys(rest) by {
          assert forall x | x in rest :: x in [l] + rest;
          assert l in [l] + rest;
        }
        assert forall x | x in rest :: LinkKey(x) != LinkKey(l);
      }
    }
  }

  lemma {:induction false} LinksSkipSeen(seen: set<string>, a: seq<Link>, b: seq<Link>)
    requires forall x | x in a :: LinkKey(x) == "" || LinkKey(x) in seen
    ensures KeptLinks(seen, a + b) == KeptLinks(seen, b)
    decreases |a|
  {
    if a == [] {
      assert a + b == b;
    } else {
      assert (a + b)[0] == a[0] && (a + b)[1..] == a[1..] + b;
      assert LinkKey(a[0]) == "" || LinkKey(a[0]) in seen;
      LinksSkipSeen(seen, a[1..], b);
    }
  }

  lemma {:induction false} LinksKeptAll(seen: set<string>, a: seq<Link>)
    requires forall x | x in a :: LinkKey(x) != "" && LinkKey(x) !in seen && !StillPending(x)
    requires forall i, j | 0 <= i < j < |a| :: LinkKey(a[i]) != LinkKey(a[j])
    ensures KeptLinks(seen, a) == a
    decreases |a|
  {
    if a != [] {
      assert a == [a[0]] + a[1..];
      forall x | x in a[1..]
        ensures LinkKey(x) != "" && LinkKey(x) !in seen + {LinkKey(a[0])} && !StillPending(x)
      {
        assert x in a;
        var k :| 0 <= k < |a[1..]| && a[1..][k] == x;
        assert x == a[k + 1];
      }
      assert LinkKey(a[0]) != "";
      LinksKeptAll(seen + {LinkKey(a[0])}, a[1..]);
    }
  }

  lemma RefreshedKey(item: Link, prior: seq<Link>)
    requires LinksAgree(prior) && LinkKey(item) != ""
    ensures LinkKey(Refreshed(item, prior)) == LinkKey(item)
  {
  }

  /** The merged links agree again. */
  lemma MergedLinksAgree(found: seq<Link>, prior: seq<Link>)
    requires LinksAgree(found) && LinksAgree(prior)
    ensures LinksAgree(MergeLinks(found, prior))
  {
    var renewed, kept := RefreshedAll(found, prior), KeptLinks(Keys(found), prior);
    KeptLinksExact(Keys(found), prior);
    forall l: Link | l in renewed + kept ensures l.urlId == "" ==> l.url == "" {
      if l in renewed { var i :| 0 <= i < |renewed| && renewed[i] == l; assert found[i] in found; }
    }
    forall k: Link, l: Link | k in renewed + kept && l in renewed + kept && LinkKey(k) == LinkKey(l) != ""
      ensures k == l
    {
      if k in renewed { RenewedOrigin(found, prior, k); }
      if l in renewed { RenewedOrigin(found, prior, l); }
    }
  }

  lemma RenewedOrigin(found: seq<Link>, prior: seq<Link>, l: Link)
    requires LinksAgree(found) && LinksAgree(prior) && l in RefreshedAll(found, prior) && LinkKey(l) != ""
    ensures LinkKey(l) in Keys(found) && forall x | x in found && LinkKey(x) == LinkKey(l) :: l == Refreshed(x, prior)
  {
    var i :| 0 <= i < |found| && RefreshedAll(found, prior)[i] == l;
    assert found[i] in found;
    if LinkKey(found[i]) != "" { RefreshedKey(found[i], prior); }
  }

  lemma LastWithSkips(a: seq<Link>, b: seq<Link>, key: string)
    requires forall l | l in b :: LinkKey(l) != key
    ensures LastWith(a + b, key) == LastWith(a, key)
  {
    if b == [] {
      assert a + b == a;
    } else {
      assert (a + b)[..|a + b| - 1] == a + b[..|b| - 1];
      LastWithSkips(a, b[..|b| - 1], key);
    }
  }

  /** A refreshed link is refreshed: looking itself up among the merged links gives it back. */
  lemma RefreshedTwice(found: seq<Link>, prior: seq<Link>, kept: seq<Link>, i: nat)
    requires LinksAgree(found) && LinksAgree(prior) && i < |found|
    requires forall l | l in kept :: LinkKey(l) !in Keys(found)
    ensures Refreshed(found[i], RefreshedAll(found, prior) + kept) == Refreshed(found[i], prior)
  {
    var renewed := RefreshedAll(found, prior);
    var key := LinkKey(found[i]);
    assert found[i] in found && renewed[i] in renewed;
    if key != "" {
      RefreshedKey(found[i], prior);
      LastWithSkips(renewed, kept, key);
      RenewedOrigin(found, prior, LastWith(renewed, key).value);
    }
  }

  /** Merging the same links again changes nothing. */
  lemma MergeLinksTwice(found: seq<Link>, prior: seq<Link>)
    requires LinksAgree(found) && LinksAgree(prior)
    ensures MergeLinks(found, MergeLinks(found, prior)) == MergeLinks(found, prior)
  {
    var seen := Keys(found);
    var renewed, kept := RefreshedAll(found, prior), KeptLinks(seen, prior);
    KeptLinksExact(seen, prior);
    SeenAgain(found, prior, kept);
    assert RefreshedAll(found, renewed + kept) == renewed by {
      forall i | 0 <= i < |found| ensures Refreshed(found[i], renewed + kept) == renewed[i] {
        RefreshedTwice(found, prior, kept, i);
      }
    }
  }

  lemma SeenAgain(found: seq<Link>, prior: seq<Link>, kept: seq<Link>)
    requires LinksAgree(found) && LinksAgree(prior) && kept == KeptLinks(Keys(found), prior)
    ensures KeptLinks(Keys(found), RefreshedAll(found, prior) + kept) == kept
  {
    var renewed := RefreshedAll(found, prior);
    KeptLinksExact(Keys(found), prior);
    forall l | l in renewed ensures LinkKey(l) == "" || LinkKey(l) in Keys(found) {
      if LinkKey(l) != "" { RenewedOrigin(found, prior, l); }
    }
    LinksSkipSeen(Keys(found), renewed, kept);
    LinksKeptAll(Keys(found), kept);
  }

  lemma MergeOwnLinks(found: seq<Link>)
    requires LinksAgree(found)
    ensures MergeLinks(found, found) == found
  {
    forall l | l in found ensures LinkKey(l) == "" || LinkKey(l) in Keys(found) {}
    assert found + [] == found;
    LinksSkipSeen(Keys(found), found, []);
    forall i | 0 <= i < |found| ensures Refreshed(found[i], found) == found[i] { assert found[i] in found; }
    assert RefreshedAll(found, found) == found;
  }

  lemma FoundAgain(found: seq<Link>, prior: seq<Link>, l: Link) returns (k: Link)
    requires LinksAgree(prior) && l in prior && LinkKey(l) != "" && LinkKey(l) in Keys(found)
    ensures k in RefreshedAll(found, prior) && k.(url := l.url) == l
  {
    var x :| x in found && LinkKey(x) == LinkKey(l);
    var i :| 0 <= i < |found| && found[i] == x;
    k := RefreshedAll(found, prior)[i];
  }

  lemma KeptAsIs(found: seq<Link>, prior: seq<Link>, l: Link) returns (k: Link)
    requires LinksAgree(prior) && l in prior && LinkKey(l) != "" && !StillPending(l) && LinkKey(l) !in Keys(found)
    ensures k in KeptLinks(Keys(found), prior) && k.(url := l.url) == l
  {
    KeptLinksExact(Keys(found), prior);
    k :| k in KeptLinks(Keys(found), prior) && LinkKey(k) == LinkKey(l);
  }

  /** No link that got past pending is dropped: it keeps everything but possibly its address text. */
  lemma LinksKept(found: seq<Link>, prior: seq<Link>, l: Link)
    requires LinksAgree(prior) && l in prior && LinkKey(l) != "" && !StillPending(l)
    ensures exists k | k in MergeLinks(found, prior) :: k.(url := l.url) == l
  {
    var k: Link;
    if LinkKey(l) in Keys(found) { k := FoundAgain(found, prior, l); } else { k := KeptAsIs(found, prior, l); }
    assert k in MergeLinks(found, prior);
  }

  /** The first loop: refresh the links of the message and note their keys. */
  method RefreshLinks(found: seq<Link>, prior: seq<Link>) returns (result: seq<Link>, seen: set<string>)
    ensures result == RefreshedAll(found, prior) && seen == Keys(found)
  {
    seen, result := {}, [];
    for i := 0 to |found|
      invariant |result| == i && forall k | 0 <= k < i :: result[k] == Refreshed(found[k], prior)
      invariant seen == Keys(found[..i])
    {
      assert found[..i + 1] == found[..i] + [found[i]];
      result := result + [Refreshed(found[i], prior)];
      if LinkKey(found[i]) != "" { seen := seen + {LinkKey(found[i])}; }
    }
    assert found[..|found|] == found;
  }

  /** The merge as the two loops compute it. */
  method MergePreservedLinks(found: seq<Link>, prior: seq<Link>) returns (result: seq<Link>)
    ensures result == MergeLinks(found, prior)
  {
    var seen;
    result, seen := RefreshLinks(found, prior);
    ghost var whole := MergeLinks(found, prior);
    assert prior[0..] == prior;
    for i := 0 to |prior|
      invariant result + KeptLinks(seen, prior[i..]) == whole
    {
      assert prior[i..][0] == prior[i] && prior[i..][1..] == prior[i + 1..];
      var key := LinkKey(prior[i]);
      if key != "" && key !in seen && !StillPending(prior[i]) {
        assert result + ([prior[i]] + KeptLinks(seen + {key}, prior[i + 1..]))
            == (result + [prior[i]]) + KeptLinks(seen + {key}, prior[i + 1..]);
        result := result + [prior[i]];
        seen := seen + {key};
      }
    }
    assert prior[|prior|..] == [];
  }

  // ---------------------------------------------------------------- the whole entry

  lemma TitleSettles(had: string, incoming: string)
    ensures PreferredTitle(PreferredTitle(had, incoming), incoming) == PreferredTitle(had, incoming)
    ensures PreferredTitle(incoming, incoming) == incoming
  {
  }

  /** A message that was merged, or that made the entry, has nothing to change in it any more. */
  lemma MergeSettles(e: Entry, m: Message, registryTitle: string)
    requires LinksAgree(e.links) && LinksAgree(m.links)
    ensures var u := Merge(e, m, registryTitle); !Changed(u, Merge(u, m, registryTitle)) && LinksAgree(u.links)
  {
    TitleSettles(e.title, PreferredTitle(registryTitle, m.title));
    MergeBlocksTwice(m.blocks, e.blocks);
    MergeLinksTwice(m.links, e.links);
    MergedLinksAgree(m.links, e.links);
  }

  lemma NewEntrySettles(m: Message, registryTitle: string, sequence: int)
    requires LinksAgree(m.links)
    ensures var e := NewEntry(m, registryTitle, sequence); !Changed(e, Merge(e, m, registryTitle))
  {
    TitleSettles("", PreferredTitle(registryTitle, m.title));
    MergeBlocksTwice(m.blocks, []);
    MergeOwnLinks(m.links);
  }
}
