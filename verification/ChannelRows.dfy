/** The payload of one conversation channel: which API-key references it owns and which one a
    request gets next. */
module ChannelRows {
  import opened Wrappers

  type ChannelId = string
  type KeyRef = string

  /** `body` stands for the descriptive fields, which these operations copy through. */
  datatype Row = Row(refs: seq<KeyRef>, slots: int, nextIndex: nat, body: string)

  /** What an incoming message contributes: the refs the key pool assigns, the slot count of the
      conversation type, and descriptive fields. */
  datatype Contribution = Contribution(offered: seq<KeyRef>, slots: int, body: string)

  function Cap(slots: int): nat {
    if slots > 1 then slots else 1
  }

  function Take<T>(s: seq<T>, n: nat): seq<T> {
    if |s| <= n then s else s[..n]
  }

  function AppendMissing(have: seq<KeyRef>, more: seq<KeyRef>): seq<KeyRef>
    decreases more
  {
    if more == [] then have
    else if more[0] != "" && more[0] !in have then AppendMissing(have + [more[0]], more[1..])
    else AppendMissing(have, more[1..])
  }

  function NonEmpty(refs: seq<KeyRef>): seq<KeyRef> {
    if refs == [] then []
    else if refs[0] != "" then [refs[0]] + NonEmpty(refs[1..]) else NonEmpty(refs[1..])
  }

  function MergeKeyRefs(existing: seq<KeyRef>, offered: seq<KeyRef>, slots: int): seq<KeyRef> {
    Take(AppendMissing(NonEmpty(existing), offered), Cap(slots))
  }

  function EnsuredRow(existing: Option<Row>, c: Contribution): Row {
    match existing
    case None => Row(MergeKeyRefs([], c.offered, c.slots), c.slots, 0, c.body)
    case Some(r) => Row(MergeKeyRefs(r.refs, c.offered, c.slots), c.slots, r.nextIndex, c.body)
  }

  predicate NoBlank(refs: seq<KeyRef>) {
    forall i | 0 <= i < |refs| :: refs[i] != ""
  }

  lemma {:induction false} NonEmptyIdentity(refs: seq<KeyRef>)
    requires NoBlank(refs)
    ensures NonEmpty(refs) == refs
  {
    if refs != [] { NonEmptyIdentity(refs[1..]); }
  }

  lemma OneMore(have: seq<KeyRef>, x: KeyRef)
    requires NoBlank(have) && Unique(have) && x != "" && x !in have
    ensures NoBlank(have + [x]) && Unique(have + [x])
  {
  }

  lemma {:induction false} AppendMissingExact(have: seq<KeyRef>, more: seq<KeyRef>)
    requires NoBlank(have) && Unique(have)
    ensures have <= AppendMissing(have, more)
    ensures NoBlank(AppendMissing(have, more)) && Unique(AppendMissing(have, more))
    ensures forall x :: x in AppendMissing(have, more) <==> x in have || (x in more && x != "")
    decreases more
  {
    if more != [] {
      var first, rest := more[0], more[1..];
      assert more == [first] + rest;
      if first != "" && first !in have {
        OneMore(have, first);
        AppendMissingExact(have + [first], rest);
      } else {
        AppendMissingExact(have, rest);
      }
    }
  }

  predicate Unique<T(==)>(s: seq<T>) {
    forall i, j | 0 <= i < j < |s| :: s[i] != s[j]
  }

  /** Ensuring a channel again keeps its refs as a prefix exactly when they still fit the slots, and
      otherwise keeps a prefix of them; the result never repeats a ref or exceeds the slots. */
  lemma RefsAreSticky(r: Row, c: Contribution)
    requires NoBlank(r.refs) && Unique(r.refs)
    ensures r.refs <= EnsuredRow(Some(r), c).refs <==> |r.refs| <= Cap(c.slots)
    ensures |r.refs| > Cap(c.slots) ==> EnsuredRow(Some(r), c).refs < r.refs
    ensures NoBlank(EnsuredRow(Some(r), c).refs) && Unique(EnsuredRow(Some(r), c).refs)
    ensures |EnsuredRow(Some(r), c).refs| <= Cap(c.slots)
  {
    NonEmptyIdentity(r.refs);
    AppendMissingExact(r.refs, c.offered);
  }

  /** Where a ref is offered first. */
  ghost function FirstAt(offered: seq<KeyRef>, x: KeyRef): nat
    requires x in offered
  {
    if offered[0] == x then 0 else 1 + FirstAt(offered[1..], x)
  }

  /** What a row owns that had some refs and is offered others: nothing but those, within the slots; all of them
      when there is room; the old ones first, and the new ones in the order in which they were first offered,
      the earlier ones winning the last slots. */
  ghost predicate Arrived(had: seq<KeyRef>, offered: seq<KeyRef>, slots: int, refs: seq<KeyRef>) {
    var room := if slots > 1 then slots else 1;
    && (forall x | x in refs :: x != "" && (x in had || x in offered))
    && |refs| <= room
    && (|refs| == room || forall x | x != "" && (x in had || x in offered) :: x in refs)
    && (forall i, j | 0 <= i < j < |refs| && refs[j] in had :: refs[i] in had)
    && (forall i, j | 0 <= i < j < |refs| && refs[i] !in had && refs[j] !in had ::
          FirstAt(offered, refs[i]) < FirstAt(offered, refs[j]))
    && (forall x, y | x in refs && x !in had && y in offered && y != "" && y !in had && y !in refs ::
          FirstAt(offered, x) < FirstAt(offered, y))
  }

  lemma {:induction false} NonEmptyMembers(refs: seq<KeyRef>)
    ensures forall x :: x in NonEmpty(refs) <==> x in refs && x != ""
  {
    if refs != [] {
      assert refs == [refs[0]] + refs[1..];
      NonEmptyMembers(refs[1..]);
    }
  }

  lemma FirstAtTail(offered: seq<KeyRef>, x: KeyRef)
    requires offered != [] && x in offered && x != offered[0]
    ensures x in offered[1..] && FirstAt(offered, x) == 1 + FirstAt(offered[1..], x)
  {
    assert offered == [offered[0]] + offered[1..];
  }

  /** From `n` on the list holds new refs, in the order of their first offer. */
  ghost predicate NewInOrder(n: nat, have: seq<KeyRef>, more: seq<KeyRef>, refs: seq<KeyRef>) {
    && (forall i | n <= i < |refs| :: refs[i] in more && refs[i] != "" && refs[i] !in have)
    && (forall i, j | n <= i < j < |refs| :: FirstAt(more, refs[i]) < FirstAt(more, refs[j]))
  }

  lemma {:induction false} AppendedInOrder(have: seq<KeyRef>, more: seq<KeyRef>)
    ensures have <= AppendMissing(have, more) && NewInOrder(|have|, have, more, AppendMissing(have, more))
    ensures forall x | x in more && x != "" :: x in AppendMissing(have, more)
    decreases more
  {
    if more != [] {
      var first, rest := more[0], more[1..];
      assert more == [first] + rest;
      var grown := if first != "" && first !in have then have + [first] else have;
      AppendedInOrder(grown, rest);
      var refs := AppendMissing(have, more);
      forall i | |grown| <= i < |refs| ensures refs[i] in more && refs[i] != first {}
      forall i | |grown| <= i < |refs| ensures FirstAt(more, refs[i]) == 1 + FirstAt(rest, refs[i]) {
        FirstAtTail(more, refs[i]);
      }
      if |grown| > |have| { assert refs[|have|] == first && FirstAt(more, first) == 0; }
    }
  }

  /** The refs that are offered arrive, and nothing else of the row is lost. */
  lemma OfferedRefsArrive(existing: Option<Row>, c: Contribution)
    ensures var row := EnsuredRow(existing, c);
            && Arrived(if existing.Some? then existing.value.refs else [], c.offered, c.slots, row.refs)
            && row.slots == c.slots && row.body == c.body
            && row.nextIndex == if existing.Some? then existing.value.nextIndex else 0
  {
    var had := if existing.Some? then existing.value.refs else [];
    var have := NonEmpty(had);
    NonEmptyMembers(had);
    AppendedInOrder(have, c.offered);
    AllArrive(had, have, c.offered, c.slots, AppendMissing(have, c.offered));
  }

  lemma AllArrive(had: seq<KeyRef>, have: seq<KeyRef>, offered: seq<KeyRef>, slots: int, all: seq<KeyRef>)
    requires forall x :: x in have <==> x in had && x != ""
    requires have <= all && NewInOrder(|have|, have, offered, all)
    requires forall x | x in offered && x != "" :: x in all
    ensures Arrived(had, offered, slots, Take(all, Cap(slots)))
  {
    var refs := Take(all, Cap(slots));
    forall i | 0 <= i < |all| ensures all[i] in had <==> i < |have| {
      if i < |have| { assert all[i] == have[i] && have[i] in have; }
    }
    forall i | 0 <= i < |refs| ensures refs[i] == all[i] {}
    forall x | x in had && x != "" ensures x in all { assert x in have; }
    forall x, y | x in refs && x !in had && y in offered && y != "" && y !in had && y !in refs
      ensures FirstAt(offered, x) < FirstAt(offered, y)
    {
      var i :| 0 <= i < |refs| && refs[i] == x;
      var j :| 0 <= j < |all| && all[j] == y;
    }
  }

  // ---------------------------------------------------------------- key rotation

  /** The refs of the row that the key pool can serve, in order. */
  function Available(refs: seq<KeyRef>, usable: set<KeyRef>): seq<KeyRef> {
    if refs == [] then []
    else if refs[0] != "" && refs[0] in usable then [refs[0]] + Available(refs[1..], usable)
    else Available(refs[1..], usable)
  }

  datatype Issue = Issue(ref: KeyRef, row: Row)

  /** One request: the ref at the stored index, and the row with the index advanced. */
  function Request(r: Row, usable: set<KeyRef>): Option<Issue> {
    var av := Available(r.refs, usable);
    if av == [] then None
    else Some(Issue(av[r.nextIndex % |av|], r.(nextIndex := (r.nextIndex + 1) % |av|)))
  }

  /** How often `ref` is issued in `n` requests in a row. */
  function TimesIssued(r: Row, usable: set<KeyRef>, n: nat, ref: KeyRef): nat
    decreases n
  {
    if n == 0 then 0
    else match Request(r, usable)
         case None => 0
         case Some(i) => (if i.ref == ref then 1 else 0) + TimesIssued(i.row, usable, n - 1, ref)
  }

  /** How often position `j` of `k` comes up in `n` steps of the rotation from `i`. */
  function Hits(k: nat, i: nat, n: nat, j: nat): nat
    requires k > 0
    decreases n
  {
    if n == 0 then 0 else (if i % k == j then 1 else 0) + Hits(k, (i + 1) % k, n - 1, j)
  }

  function Wait(k: nat, i: nat, j: nat): (d: nat)
    requires i < k && j < k
    ensures d < k
  {
    if j >= i then j - i else j - i + k
  }

  lemma {:induction false} MulGap(a: nat, b: nat, k: nat)
    requires a < b
    ensures a * k + k <= b * k
    decreases b
  {
    assert b * k == (b - 1) * k + k;
    if a < b - 1 { MulGap(a, b - 1, k); }
  }

  lemma DivUnique(x: nat, k: nat, q: nat, r: nat)
    requires k > 0 && r < k && x == q * k + r
    ensures x / k == q && x % k == r
  {
    var q' := x / k;
    assert x == q' * k + x % k;
    if q' < q { MulGap(q', q, k); }
    if q < q' { MulGap(q, q', k); }
  }

  lemma DivStep(x: nat, k: nat)
    requires k > 0 && x >= k
    ensures x / k == 1 + (x - k) / k
  {
    var q, r := (x - k) / k, (x - k) % k;
    assert x - k == q * k + r && (q + 1) * k == q * k + k;
    DivUnique(x, k, q + 1, r);
  }

  lemma DivMonotone(x: nat, y: nat, k: nat)
    requires k > 0 && x <= y
    ensures x / k <= y / k
  {
    var q, q' := x / k, y / k;
    assert x == q * k + x % k && y == q' * k + y % k;
    if q' < q { MulGap(q', q, k); }
  }

  /** Position `j` comes up first after `Wait` steps and then every `k` steps. */
  lemma {:induction false} HitsExact(k: nat, i: nat, n: nat, j: nat)
    requires i < k && j < k
    ensures Hits(k, i, n, j) == if n <= Wait(k, i, j) then 0 else 1 + (n - 1 - Wait(k, i, j)) / k
    decreases n
  {
    if n > 0 {
      var next := if i + 1 == k then 0 else i + 1;
      assert (i + 1) % k == next && i % k == i by { ModSmall(i, k); }
      HitsExact(k, next, n - 1, j);
      if i == j && n - 1 > k - 1 { DivStep(n - 1, k); }
      if i == j && n - 1 <= k - 1 { DivUnique(n - 1, k, 0, n - 1); }
    }
  }

  lemma ModSmall(i: nat, k: nat)
    requires i < k
    ensures i % k == i && (i + 1) % k == if i + 1 == k then 0 else i + 1
  {
  }

  lemma AtMostCeiling(k: nat, n: nat, d: nat)
    requires d < k && n > d
    ensures 1 + (n - 1 - d) / k <= (n + k - 1) / k
  {
    DivStep(n + k - 1, k);
    assert n + k - 1 - k == n - 1;
    DivMonotone(n - 1 - d, n - 1, k);
  }

  lemma AtLeastFloor(k: nat, n: nat, d: nat)
    requires d < k && n > d
    ensures n / k <= 1 + (n - 1 - d) / k
  {
    if n >= k {
      DivStep(n, k);
      DivMonotone(n - k, n - 1 - d, k);
    } else {
      DivUnique(n, k, 0, n);
      DivMonotone(0, n - 1 - d, k);
    }
  }

  lemma Between(k: nat, n: nat, d: nat)
    requires d < k && n > d
    ensures n / k <= 1 + (n - 1 - d) / k <= (n + k - 1) / k
  {
    AtLeastFloor(k, n, d);
    AtMostCeiling(k, n, d);
  }

  lemma NoHit(k: nat, n: nat)
    requires n < k
    ensures n / k == 0 <= (n + k - 1) / k
  {
    DivUnique(n, k, 0, n);
    DivMonotone(n, n + k - 1, k);
  }

  /** Every position comes up floor(n/k) or ceil(n/k) times. */
  lemma HitsFair(k: nat, i: nat, n: nat, j: nat)
    requires i < k && j < k
    ensures n / k <= Hits(k, i, n, j) <= (n + k - 1) / k
  {
    HitsExact(k, i, n, j);
    var d := Wait(k, i, j);
    if n > d { Between(k, n, d); } else { NoHit(k, n); }
  }

  lemma {:induction false} AvailableExact(refs: seq<KeyRef>, usable: set<KeyRef>)
    requires Unique(refs)
    ensures Unique(Available(refs, usable))
    ensures forall x :: x in Available(refs, usable) <==> x in refs && x != "" && x in usable
  {
    if refs != [] {
      assert refs == [refs[0]] + refs[1..];
      AvailableExact(refs[1..], usable);
      assert refs[0] !in refs[1..];
    }
  }

  /** The rotation goes through the usable refs in the order of the row. */
  lemma {:induction false} AvailableInOrder(refs: seq<KeyRef>, usable: set<KeyRef>)
    requires Unique(refs)
    ensures forall i | 0 <= i < |Available(refs, usable)| :: Available(refs, usable)[i] in refs
    ensures forall i, j | 0 <= i < j < |Available(refs, usable)| ::
              FirstAt(refs, Available(refs, usable)[i]) < FirstAt(refs, Available(refs, usable)[j])
  {
    if refs != [] {
      var rest, av := refs[1..], Available(refs[1..], usable);
      AvailableExact(rest, usable);
      AvailableInOrder(rest, usable);
      AvailableExact(refs, usable);
      forall x | x in av ensures FirstAt(refs, x) == 1 + FirstAt(rest, x) { FirstAtTail(refs, x); }
    }
  }

  lemma {:induction false} TimesAreHits(r: Row, usable: set<KeyRef>, n: nat, j: nat)
    requires Unique(r.refs) && j < |Available(r.refs, usable)|
    ensures TimesIssued(r, usable, n, Available(r.refs, usable)[j])
            == Hits(|Available(r.refs, usable)|, r.nextIndex, n, j)
    decreases n
  {
    AvailableExact(r.refs, usable);
    var av := Available(r.refs, usable);
    if n > 0 {
      var i := Request(r, usable).value;
      assert i.ref == av[j] <==> r.nextIndex % |av| == j;
      TimesAreHits(i.row, usable, n - 1, j);
    }
  }

  /** Fairness: over any `n` requests in a row with `k` usable refs, each usable ref is issued
      floor(n/k) or ceil(n/k) times, wherever the stored index stood. */
  lemma RotationIsFair(r: Row, usable: set<KeyRef>, n: nat, ref: KeyRef)
    requires Unique(r.refs) && ref in r.refs && ref != "" && ref in usable
    ensures var k := |Available(r.refs, usable)|; k > 0 && n / k <= TimesIssued(r, usable, n, ref) <= (n + k - 1) / k
  {
    AvailableExact(r.refs, usable);
    var av := Available(r.refs, usable);
    assert ref in av;
    var j :| 0 <= j < |av| && av[j] == ref;
    TimesAreHits(r, usable, n, j);
    HitsFromAnywhere(|av|, r.nextIndex, n, j);
    HitsFair(|av|, r.nextIndex % |av|, n, j);
  }

  lemma HitsFromAnywhere(k: nat, i: nat, n: nat, j: nat)
    requires k > 0
    ensures Hits(k, i, n, j) == Hits(k, i % k, n, j)
  {
    NextModulo(i, k);
  }

  lemma NextModulo(i: nat, k: nat)
    requires k > 0
    ensures i % k % k == i % k && (i + 1) % k == (i % k + 1) % k
  {
    var q, m := i / k, i % k;
    DivBack(i, k);
    ModSmall(m, k);
    if m + 1 == k {
      MulNext(q, k);
      DivUnique(i + 1, k, q + 1, 0);
    } else {
      DivUnique(i + 1, k, q, m + 1);
    }
  }

  lemma DivBack(i: nat, k: nat)
    requires k > 0
    ensures i == i / k * k + i % k
  {
  }

  lemma MulNext(q: nat, k: nat)
    ensures (q + 1) * k == q * k + k
  {
  }

  /** The stored index is below the number of usable refs after every request, whatever it was before. */
  lemma IndexBackInRange(r: Row, usable: set<KeyRef>)
    requires Request(r, usable).Some?
    ensures Request(r, usable).value.row.nextIndex < |Available(r.refs, usable)|
    ensures Request(r, usable).value.row.refs == r.refs
  {
  }
}
