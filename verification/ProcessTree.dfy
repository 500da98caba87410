/** Worklist closures over a process table whose parent links may be stale, duplicated or cyclic. */
module ProcessTree {

  /** One row of a process table snapshot. */
  datatype Row = Row(pid: int, parent: int, creation: string)

  // ---------------------------------------------------------------- reachability

  /** Some row says that `v`, a positive pid, is a child of `u`. */
  ghost predicate Edge(table: seq<Row>, u: int, v: int) {
    v > 0 && exists i | 0 <= i < |table| :: table[i].parent == u && table[i].pid == v
  }

  ghost predicate IsPath(table: seq<Row>, path: seq<int>) {
    |path| >= 2 && forall i | 0 <= i < |path| - 1 :: Edge(table, path[i], path[i + 1])
  }

  /** `v` is reached from `u` in one or more parent-to-child edges. */
  ghost predicate Reaches(table: seq<Row>, u: int, v: int) {
    exists path: seq<int> :: IsPath(table, path) && path[0] == u && path[|path| - 1] == v
  }

  lemma EdgeReaches(table: seq<Row>, u: int, v: int)
    requires Edge(table, u, v)
    ensures Reaches(table, u, v)
  {
    assert IsPath(table, [u, v]);
  }

  lemma ReachesFurther(table: seq<Row>, u: int, v: int, w: int)
    requires Reaches(table, u, v) && Edge(table, v, w)
    ensures Reaches(table, u, w)
  {
    var path: seq<int> :| IsPath(table, path) && path[0] == u && path[|path| - 1] == v;
    var longer := path + [w];
    assert forall i | 0 <= i < |longer| - 1 :: Edge(table, longer[i], longer[i + 1]);
  }

  /** The set is closed under edges, and holds every child of `u`. */
  ghost predicate ClosedFrom(table: seq<Row>, u: int, found: set<int>) {
    forall x, y | (x == u || x in found) && Edge(table, x, y) :: y in found
  }

  lemma {:induction false} PathStays(table: seq<Row>, path: seq<int>, found: set<int>)
    requires IsPath(table, path) && ClosedFrom(table, path[0], found)
    ensures path[|path| - 1] in found
  {
    if |path| == 2 {
      assert Edge(table, path[0], path[1]);
    } else {
      var shorter := path[..|path| - 1];
      assert IsPath(table, shorter);
      PathStays(table, shorter, found);
      assert Edge(table, path[|path| - 2], path[|path| - 1]);
    }
  }

  lemma ClosedHoldsReachable(table: seq<Row>, u: int, found: set<int>)
    requires ClosedFrom(table, u, found)
    ensures forall v | Reaches(table, u, v) :: v in found
  {
    forall v | Reaches(table, u, v) ensures v in found {
      var path: seq<int> :| IsPath(table, path) && path[0] == u && path[|path| - 1] == v;
      PathStays(table, path, found);
    }
  }

  // ---------------------------------------------------------------- the closure

  function ChildrenOf(table: seq<Row>, u: int): (r: seq<Row>)
    ensures forall x :: x in r <==> x in table && x.parent == u
  {
    if table == [] then []
    else
      assert table == table[..|table| - 1] + [table[|table| - 1]];
      var rest := ChildrenOf(table[..|table| - 1], u);
      if table[|table| - 1].parent == u then rest + [table[|table| - 1]] else rest
  }

  function Group(byParent: map<int, seq<Row>>, u: int): seq<Row> {
    if u in byParent then byParent[u] else []
  }

  ghost predicate Grouped(table: seq<Row>, byParent: map<int, seq<Row>>) {
    forall u :: ChildrenOf(table, u) == Group(byParent, u)
  }

  /** The table grouped by parent, in table order. */
  method GroupByParent(table: seq<Row>) returns (byParent: map<int, seq<Row>>)
    ensures Grouped(table, byParent)
  {
    byParent := map[];
    for i := 0 to |table|
      invariant Grouped(table[..i], byParent)
    {
      assert forall u :: ChildrenOf(table[..i], u) == Group(byParent, u);
      assert table[..i + 1][..i] == table[..i];
      var u := table[i].parent;
      byParent := byParent[u := Group(byParent, u) + [table[i]]];
    }
    assert table[..|table|] == table;
  }

  function PidsOf(table: seq<Row>): set<int> {
    set r | r in table :: r.pid
  }

  lemma EdgeIsChild(table: seq<Row>, u: int)
    ensures forall v :: Edge(table, u, v) <==> v > 0 && exists x | x in ChildrenOf(table, u) :: x.pid == v
  {
    forall v | v > 0 && exists x | x in ChildrenOf(table, u) :: x.pid == v ensures Edge(table, u, v) {
      var x :| x in ChildrenOf(table, u) && x.pid == v;
      var i :| 0 <= i < |table| && table[i] == x;
    }
    forall v | Edge(table, u, v) ensures exists x | x in ChildrenOf(table, u) :: x.pid == v {
      var i :| 0 <= i < |table| && table[i].parent == u && table[i].pid == v;
      assert table[i] in ChildrenOf(table, u);
    }
  }

  /** Every recorded process is really reachable, and its row comes from the table. */
  ghost predicate SoundlyFound(table: seq<Row>, root: int, found: map<int, Row>) {
    forall v | v in found :: v > 0 && Reaches(table, root, v) && found[v] in table && found[v].pid == v
  }

  /** The root and every recorded process have all their children recorded, unless they are still pending. */
  ghost predicate ExpandedBut(table: seq<Row>, root: int, found: map<int, Row>, pending: seq<int>) {
    forall x, y | (x == root || x in found) && x !in pending && Edge(table, x, y) :: y in found
  }

  /** Of the rows for one pid, the last. */
  ghost predicate LastRow(rows: seq<Row>, r: Row) {
    exists i :: 0 <= i < |rows| && rows[i] == r && LastAt(rows, i)
  }

  ghost predicate LastAt(rows: seq<Row>, i: nat)
    requires i < |rows|
  {
    forall j | i < j < |rows| :: rows[j].pid != rows[i].pid
  }

  lemma LastRowNext(rows: seq<Row>, i: nat)
    requires i < |rows|
    ensures LastRow(rows[..i + 1], rows[i])
    ensures forall r | LastRow(rows[..i], r) && r.pid != rows[i].pid :: LastRow(rows[..i + 1], r)
  {
    assert rows[..i + 1][i] == rows[i] && LastAt(rows[..i + 1], i);
    forall r | LastRow(rows[..i], r) && r.pid != rows[i].pid ensures LastRow(rows[..i + 1], r) {
      var k :| 0 <= k < i && rows[..i][k] == r && LastAt(rows[..i], k);
      assert rows[..i + 1][k] == r && LastAt(rows[..i + 1], k);
    }
  }

  predicate Unique(s: seq<int>) {
    forall i, j | 0 <= i < j < |s| :: s[i] != s[j]
  }

  /** The sequence lists the set, each element once. */
  ghost predicate Lists(listing: seq<int>, s: set<int>) {
    (forall x :: x in listing <==> x in s) && Unique(listing)
  }

  /** Record those children that are new, and queue them. */
  method RecordChildren(children: seq<Row>, was: map<int, Row>, rest: seq<int>, listed: seq<int>)
    returns (found: map<int, Row>, pending: seq<int>, listing: seq<int>)
    requires Lists(listed, was.Keys)
    ensures Lists(listing, found.Keys) && was.Keys <= found.Keys && (forall v | v in was :: found[v] == was[v])
    ensures forall v | v in found && v !in was :: v > 0 && found[v] in children && found[v].pid == v && v in pending
    ensures forall x | x in pending :: x in rest || x in found
    ensures forall x | x in rest :: x in pending
    ensures forall j | 0 <= j < |children| && children[j].pid > 0 :: children[j].pid in found
    ensures found.Keys == was.Keys ==> pending == rest
  {
    found, pending, listing := was, rest, listed;
    for i := 0 to |children|
      invariant Lists(listing, found.Keys) && was.Keys <= found.Keys && (forall v | v in was :: found[v] == was[v])
      invariant forall v | v in found && v !in was :: v > 0 && found[v] in children && found[v].pid == v && v in pending
      invariant forall x | x in pending :: x in rest || x in found
      invariant forall x | x in rest :: x in pending
      invariant forall j | 0 <= j < i && children[j].pid > 0 :: children[j].pid in found
      invariant found.Keys == was.Keys ==> pending == rest
    {
      var child := children[i];
      if child.pid > 0 && child.pid !in found {
        found := found[child.pid := child];
        pending := pending + [child.pid];
        listing := listing + [child.pid];
      }
    }
  }

  /** Expand one pid: its children are recorded, and the closure is complete but for the queued ones. */
  method AddChildren(table: seq<Row>, root: int, current: int, children: seq<Row>, was: map<int, Row>, rest: seq<int>,
                     listed: seq<int>)
    returns (found: map<int, Row>, pending: seq<int>, listing: seq<int>)
    requires children == ChildrenOf(table, current) && (current == root || current in was)
    requires SoundlyFound(table, root, was) && was.Keys <= PidsOf(table)
    requires ExpandedBut(table, root, was, rest + [current])
    requires forall x | x in rest :: x == root || x in was
    requires Lists(listed, was.Keys)
    ensures Lists(listing, found.Keys)
    ensures SoundlyFound(table, root, found) && was.Keys <= found.Keys <= PidsOf(table)
    ensures ExpandedBut(table, root, found, pending)
    ensures forall x | x in pending :: x == root || x in found
    ensures found.Keys == was.Keys ==> pending == rest
  {
    found, pending, listing := RecordChildren(children, was, rest, listed);
    NewSound(table, root, current, children, was, found);
    Expanded(table, root, was, found, current, rest, pending, children);
  }

  /** The pids are exactly those reachable from the root, each with one of its rows. */
  ghost predicate IsClosure(table: seq<Row>, root: int, found: map<int, Row>) {
    && (forall v :: v in found <==> Reaches(table, root, v))
    && (forall v | v in found :: found[v] in table && found[v].pid == v && v > 0)
  }

  /** Collect what hangs below `root`: the pids found are exactly the positive pids reachable from it
      in one or more edges, on any table, cyclic or not. */
  method Collect(table: seq<Row>, root: int) returns (found: map<int, Row>, listing: seq<int>)
    ensures IsClosure(table, root, found) && Lists(listing, found.Keys)
  {
    var byParent := GroupByParent(table);
    found, listing := map[], [];
    var pending := [root];
    while pending != []
      invariant Lists(listing, found.Keys)
      invariant SoundlyFound(table, root, found) && found.Keys <= PidsOf(table)
      invariant forall x | x in pending :: x == root || x in found
      invariant ExpandedBut(table, root, found, pending)
      decreases Left(table, found.Keys), |pending|
    {
      var current, rest := pending[|pending| - 1], pending[..|pending| - 1];
      LastOf(pending);
      ghost var was := found;
      found, pending, listing := AddChildren(table, root, current, Group(byParent, current), found, rest, listing);
      FewerLeft(table, was.Keys, found.Keys);
    }
    DoneIsExact(table, root, found);
  }

  lemma DoneIsExact(table: seq<Row>, root: int, found: map<int, Row>)
    requires SoundlyFound(table, root, found) && ExpandedBut(table, root, found, [])
    ensures IsClosure(table, root, found)
  {
    assert ClosedFrom(table, root, found.Keys);
    ClosedHoldsReachable(table, root, found.Keys);
  }

  lemma LastOf(s: seq<int>)
    requires s != []
    ensures s == s[..|s| - 1] + [s[|s| - 1]] && s[|s| - 1] in s
    ensures forall x :: x in s <==> x in s[..|s| - 1] || x == s[|s| - 1]
  {
  }

  lemma NewlyFound(table: seq<Row>, root: int, current: int, child: Row, found: map<int, Row>)
    requires current == root || (current in found && Reaches(table, root, current))
    requires child in ChildrenOf(table, current) && child.pid > 0
    ensures Reaches(table, root, child.pid) && child in table && child.pid in PidsOf(table)
  {
    EdgeIsChild(table, current);
    assert Edge(table, current, child.pid);
    if current == root { EdgeReaches(table, root, child.pid); }
    else { ReachesFurther(table, root, current, child.pid); }
  }

  lemma NewSound(table: seq<Row>, root: int, current: int, children: seq<Row>, was: map<int, Row>, found: map<int, Row>)
    requires SoundlyFound(table, root, was) && was.Keys <= PidsOf(table) && children == ChildrenOf(table, current)
    requires current == root || current in was
    requires was.Keys <= found.Keys && forall v | v in was :: found[v] == was[v]
    requires forall v | v in found && v !in was :: v > 0 && found[v] in children && found[v].pid == v
    ensures SoundlyFound(table, root, found) && found.Keys <= PidsOf(table)
  {
    forall v | v in found
      ensures v > 0 && Reaches(table, root, v) && found[v] in table && found[v].pid == v && v in PidsOf(table)
    {
      if v in was {
        assert v in was.Keys && found[v] == was[v];
      } else {
        NewlyFound(table, root, current, found[v], was);
      }
    }
    forall v | v in found.Keys ensures v in PidsOf(table) { assert v in found; }
  }

  lemma Expanded(table: seq<Row>, root: int, was: map<int, Row>, found: map<int, Row>, current: int,
                 rest: seq<int>, pending: seq<int>, children: seq<Row>)
    requires ExpandedBut(table, root, was, rest + [current]) && was.Keys <= found.Keys
    requires children == ChildrenOf(table, current)
    requires forall x | x in found && x !in was :: x in pending
    requires forall x | x in rest :: x in pending
    requires forall j | 0 <= j < |children| && children[j].pid > 0 :: children[j].pid in found
    ensures ExpandedBut(table, root, found, pending)
  {
    EdgeIsChild(table, current);
    forall x, y | (x == root || x in found) && x !in pending && Edge(table, x, y) ensures y in found {
      if x != current { assert x !in rest + [current]; }
    }
  }

  ghost function Left(table: seq<Row>, found: set<int>): nat {
    |PidsOf(table) - found|
  }

  lemma FewerLeft(table: seq<Row>, was: set<int>, now: set<int>)
    requires was <= now <= PidsOf(table)
    ensures Left(table, now) < Left(table, was) || now == was
  {
    if now != was { SetSmaller(PidsOf(table) - now, PidsOf(table) - was); }
  }

  lemma SetSmaller(x: set<int>, y: set<int>)
    requires x < y
    ensures |x| < |y|
  {
    assert y == x + (y - x);
  }

  /** Below the root, but neither the helper process nor below it. */
  ghost predicate IsDescendant(table: seq<Row>, root: int, helper: int, v: int) {
    Reaches(table, root, v) && v != helper && !Reaches(table, helper, v)
  }

  /** The listed rows that are neither the helper nor in its tree. */
  method KeepRows(found: map<int, Row>, listing: seq<int>, own: map<int, Row>, helper: int) returns (rows: seq<Row>)
    requires Lists(listing, found.Keys) && forall v | v in found :: found[v].pid == v
    ensures forall r | r in rows :: r.pid in listing && r == found[r.pid] && r.pid != helper && r.pid !in own
    ensures forall k | 0 <= k < |listing| && listing[k] != helper && listing[k] !in own :: found[listing[k]] in rows
    ensures forall i, j | 0 <= i < j < |rows| :: rows[i].pid != rows[j].pid
  {
    rows := [];
    for i := 0 to |listing|
      invariant forall r | r in rows :: r.pid in listing[..i] && r == found[r.pid] && r.pid != helper && r.pid !in own
      invariant forall k | 0 <= k < i && listing[k] != helper && listing[k] !in own :: found[listing[k]] in rows
      invariant forall k, j | 0 <= k < j < |rows| :: rows[k].pid != rows[j].pid
    {
      var v := listing[i];
      assert v in listing && listing[..i + 1] == listing[..i] + [v] && v !in listing[..i];
      if v != helper && v !in own { rows := rows + [found[v]]; }
    }
  }

  /** The rows of everything below the root without the helper's own tree: exactly one row of each
      such pid, and every row is from the table. */
  method Descendants(table: seq<Row>, root: int, helper: int) returns (rows: seq<Row>)
    ensures forall v :: (exists r | r in rows :: r.pid == v) <==> IsDescendant(table, root, helper, v)
    ensures forall r | r in rows :: r in table && r.pid > 0
    ensures forall i, j | 0 <= i < j < |rows| :: rows[i].pid != rows[j].pid
  {
    var found, listing := Collect(table, root);
    var own, _ := Collect(table, helper);
    rows := KeepRows(found, listing, own, helper);
    RowsAreDescendants(table, root, helper, found, own, listing, rows);
  }

  lemma RowsAreDescendants(table: seq<Row>, root: int, helper: int, found: map<int, Row>, own: map<int, Row>,
                           listing: seq<int>, rows: seq<Row>)
    requires IsClosure(table, root, found) && IsClosure(table, helper, own) && Lists(listing, found.Keys)
    requires forall r | r in rows :: r.pid in listing && r == found[r.pid] && r.pid != helper && r.pid !in own
    requires forall k | 0 <= k < |listing| && listing[k] != helper && listing[k] !in own :: found[listing[k]] in rows
    ensures forall v :: (exists r | r in rows :: r.pid == v) <==> IsDescendant(table, root, helper, v)
    ensures forall r | r in rows :: r in table && r.pid > 0
  {
    forall v | IsDescendant(table, root, helper, v) ensures exists r | r in rows :: r.pid == v {
      assert v in found && v in listing && v !in own;
      var k :| 0 <= k < |listing| && listing[k] == v;
      assert found[v] in rows && found[v].pid == v;
    }
  }
}
