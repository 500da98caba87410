/** The sidebar browser's process tree: which processes belong to it, and at which depth. */
module BrowserTree {
  import opened ProcessTree

  /** A browser process: its row, the root it was reached from, its depth below that root. */
  datatype Node = Node(row: Row, root: int, depth: nat)

  /** The rows whose process was still there when they were sampled; `alive` holds one answer for each row. */
  function Kept(table: seq<Row>, alive: seq<bool>): seq<Row>
    requires |alive| == |table|
  {
    if table == [] then [] else (if alive[0] then [table[0]] else []) + Kept(table[1..], alive[1..])
  }

  lemma {:induction false} KeptExact(table: seq<Row>, alive: seq<bool>)
    requires |alive| == |table|
    ensures forall x :: x in Kept(table, alive) <==> exists i | 0 <= i < |table| :: alive[i] && table[i] == x
  {
    if table != [] {
      KeptExact(table[1..], alive[1..]);
      assert forall i | 0 < i < |table| :: table[i] == table[1..][i - 1] && alive[i] == alive[1..][i - 1];
      assert forall i | 0 <= i < |table| - 1 :: table[1..][i] == table[i + 1] && alive[1..][i] == alive[i + 1];
    }
  }

  /** A root is at depth zero; any other node hangs below its recorded parent, one level deeper and in
      the same tree. */
  ghost predicate Placed(kept: seq<Row>, roots: set<int>, found: map<int, Node>, c: int) {
    && c in found && found[c].row.pid == c
    && if c in roots then found[c].depth == 0 && found[c].root == c
       else var parent := found[c].row.parent;
            && c > 0 && found[c].row in kept && parent in found
            && found[c].depth == found[parent].depth + 1 && found[c].root == found[parent].root
  }

  ghost predicate TreeShaped(kept: seq<Row>, roots: set<int>, found: map<int, Node>) {
    forall c {:trigger Placed(kept, roots, found, c)} :: c in found ==> Placed(kept, roots, found, c)
  }

  /** All children of an expanded node are in the tree. */
  ghost predicate TreeExpanded(kept: seq<Row>, found: map<int, Node>, but: set<int>) {
    forall x, y | x in found && x !in but && Edge(kept, x, y) :: y in found
  }

  lemma NodeAdded(kept: seq<Row>, roots: set<int>, found: map<int, Node>, parent: int, child: Row)
    requires child in kept && TreeShaped(kept, roots, found) && parent in found && child.parent == parent
    requires child.pid > 0 && child.pid !in found && roots <= found.Keys
    ensures TreeShaped(kept, roots, found[child.pid := Node(child, found[parent].root, found[parent].depth + 1)])
  {
    var grown := found[child.pid := Node(child, found[parent].root, found[parent].depth + 1)];
    forall c | c in grown ensures Placed(kept, roots, grown, c) {
      if c != child.pid { assert Placed(kept, roots, found, c); }
    }
  }

  /** Insert the children of one node; a child that is not in the tree yet is sampled first. */
  method AddNodes(table: seq<Row>, alive: seq<bool>, roots: set<int>, parent: int, was: map<int, Node>, rest: seq<int>)
    returns (found: map<int, Node>, pending: seq<int>)
    requires |alive| == |table| && parent in was && roots <= was.Keys <= roots + PidsOf(Kept(table, alive))
    requires TreeShaped(Kept(table, alive), roots, was)
    requires TreeExpanded(Kept(table, alive), was, Elements(rest + [parent]))
    requires Unique(rest) && forall x | x in rest :: x in was
    ensures TreeShaped(Kept(table, alive), roots, found) && was.Keys <= found.Keys <= roots + PidsOf(Kept(table, alive))
    ensures TreeExpanded(Kept(table, alive), found, Elements(pending)) && forall x | x in pending :: x in found
    ensures Unique(pending) && forall x | x in pending :: x in rest || x !in was
    ensures found.Keys == was.Keys ==> pending == rest
  {
    found, pending := was, rest;
    ghost var kept := Kept(table, alive);
    KeptExact(table, alive);
    for i := 0 to |table|
      invariant TreeShaped(kept, roots, found) && was.Keys <= found.Keys <= roots + PidsOf(kept)
      invariant Queue(rest, was.Keys, found.Keys, pending)
      invariant forall j | 0 <= j < i && alive[j] && table[j].parent == parent && table[j].pid > 0 ::
                  table[j].pid in found
    {
      var child := table[i];
      if child.parent == parent && child.pid > 0 && child.pid !in found && alive[i] {
        assert child in kept;
        NodeAdded(kept, roots, found, parent, child);
        NodeQueued(rest, was.Keys, found.Keys, pending, child.pid);
        found := found[child.pid := Node(child, found[parent].root, found[parent].depth + 1)];
        pending := pending + [child.pid];
      }
    }
    NodeExpanded(kept, was, found, parent, rest, pending);
  }

  /** The queue while children are inserted: what it was, then the new nodes, each once. */
  ghost predicate Queue(rest: seq<int>, was: set<int>, found: set<int>, pending: seq<int>) {
    && Unique(pending) && (found == was ==> pending == rest)
    && (forall x | x in pending :: x in found && (x in rest || x !in was))
    && (forall x | x in rest :: x in pending)
    && (forall x | x in found && x !in was :: x in pending)
  }

  lemma NodeQueued(rest: seq<int>, was: set<int>, found: set<int>, pending: seq<int>, c: int)
    requires Queue(rest, was, found, pending) && was <= found && c !in found
    ensures Queue(rest, was, found + {c}, pending + [c])
  {
    assert c !in pending;
  }

  ghost function Elements(s: seq<int>): set<int> {
    set x | x in s
  }

  lemma NodeExpanded(kept: seq<Row>, was: map<int, Node>, found: map<int, Node>, parent: int, rest: seq<int>,
                     pending: seq<int>)
    requires TreeExpanded(kept, was, Elements(rest + [parent])) && was.Keys <= found.Keys
    requires forall x | x in found && x !in was :: x in pending
    requires forall x | x in rest :: x in pending
    requires forall r | r in kept && r.parent == parent && r.pid > 0 :: r.pid in found
    ensures TreeExpanded(kept, found, Elements(pending))
  {
    forall x, y | x in found && x !in Elements(pending) && Edge(kept, x, y) ensures y in found {
      if x != parent { assert x !in Elements(rest + [parent]); }
    }
  }

  /** The pending nodes are listed once, and none of them is done. */
  ghost predicate Fresh(pending: seq<int>, done: set<int>) {
    Unique(pending) && forall x | x in pending :: x !in done
  }

  lemma LastIsOnce(s: seq<int>, done: set<int>)
    requires s != [] && Fresh(s, done)
    ensures s[|s| - 1] !in done && Fresh(s[..|s| - 1], done + {s[|s| - 1]})
  {
    var last, init := s[|s| - 1], s[..|s| - 1];
    assert last in s;
    forall x | x in init ensures x !in done + {last} {
      var k :| 0 <= k < |init| && init[k] == x;
      assert s[k] == x && x in s;
    }
    assert Unique(init);
  }

  lemma StillFresh(rest: seq<int>, pending: seq<int>, was: set<int>, done: set<int>)
    requires Fresh(rest, done) && done <= was && Unique(pending) && forall x | x in pending :: x in rest || x !in was
    ensures Fresh(pending, done)
  {
  }

  ghost function NodesLeft(table: seq<Row>, roots: set<int>, found: set<int>): nat {
    |(roots + PidsOf(table)) - found|
  }

  lemma FewerNodesLeft(table: seq<Row>, roots: set<int>, was: set<int>, now: set<int>)
    requires was <= now <= roots + PidsOf(table)
    ensures NodesLeft(table, roots, now) < NodesLeft(table, roots, was) || now == was
  {
    if now != was { SetSmaller((roots + PidsOf(table)) - now, (roots + PidsOf(table)) - was); }
  }

  /** The roots, each once, with depth zero. */
  method RootNodes(profile: seq<Row>) returns (roots: map<int, Row>, found: map<int, Node>, pending: seq<int>)
    ensures roots.Keys == (set r | r in profile && r.pid > 0 :: r.pid) == found.Keys
    ensures forall r | r in found :: found[r].row.pid == r && found[r].root == r && found[r].depth == 0
    ensures Unique(pending) && forall x :: x in pending <==> x in roots
    ensures forall r | r in roots :: roots[r].pid == r && LastRow(profile, roots[r]) && found[r].row == roots[r]
  {
    roots, found, pending := map[], map[], [];
    for i := 0 to |profile|
      invariant roots.Keys == (set r | r in profile[..i] && r.pid > 0 :: r.pid) == found.Keys
      invariant forall r | r in found :: found[r].row.pid == r && found[r].root == r && found[r].depth == 0
      invariant Unique(pending) && forall x :: x in pending <==> x in roots
      invariant forall r | r in roots ::
                  roots[r].pid == r && LastRow(profile[..i], roots[r]) && found[r].row == roots[r]
    {
      var r := profile[i];
      LastRowNext(profile, i);
      assert profile[..i + 1] == profile[..i] + [r];
      if r.pid > 0 {
        if r.pid !in roots { pending := pending + [r.pid]; }
        roots := roots[r.pid := r];
        found := found[r.pid := Node(r, r.pid, 0)];
      }
    }
    assert profile[..|profile|] == profile;
  }

  /** The tree below the profile's processes.  No node is expanded twice, so no row is sampled twice, and
      one answer for each row covers all there can be. */
  method BrowserProcessTree(table: seq<Row>, profile: seq<Row>, alive: seq<bool>)
    returns (roots: map<int, Row>, found: map<int, Node>)
    requires |alive| == |table|
    ensures roots.Keys == set r | r in profile && r.pid > 0 :: r.pid
    ensures forall r | r in roots :: roots[r].pid == r && LastRow(profile, roots[r])
    ensures roots.Keys <= found.Keys <= roots.Keys + PidsOf(Kept(table, alive))
    ensures TreeShaped(Kept(table, alive), roots.Keys, found) && TreeExpanded(Kept(table, alive), found, {})
  {
    var pending: seq<int>;
    roots, found, pending := RootNodes(profile);
    ghost var kept, done := Kept(table, alive), {};
    forall c | c in found ensures Placed(kept, roots.Keys, found, c) {}
    while pending != []
      invariant TreeShaped(kept, roots.Keys, found) && roots.Keys <= found.Keys <= roots.Keys + PidsOf(kept)
      invariant TreeExpanded(kept, found, Elements(pending)) && forall x | x in pending :: x in found
      invariant Fresh(pending, done) && done <= found.Keys
      decreases NodesLeft(kept, roots.Keys, found.Keys), |pending|
    {
      var current, rest := pending[|pending| - 1], pending[..|pending| - 1];
      LastOf(pending);
      LastIsOnce(pending, done);
      assert current !in done;
      ghost var was := found;
      found, pending := AddNodes(table, alive, roots.Keys, current, found, rest);
      StillFresh(rest, pending, was.Keys, done + {current});
      done := done + {current};
      FewerNodesLeft(kept, roots.Keys, was.Keys, found.Keys);
    }
    assert Elements(pending) == {};
  }

  /** Stopping browser processes deepest first stops every non-root process before its parent. */
  lemma BrowserChildrenFirst(kept: seq<Row>, roots: set<int>, found: map<int, Node>, order: seq<int>, i: nat, j: nat)
    requires TreeShaped(kept, roots, found) && (forall k | 0 <= k < |order| :: order[k] in found)
    requires forall k, m | 0 <= k < m < |order| :: found[order[k]].depth >= found[order[m]].depth
    requires i < |order| && j < |order| && order[i] !in roots && order[j] == found[order[i]].row.parent
    ensures i < j
  {
    assert Placed(kept, roots, found, order[i]);
  }

  // ---------------------------------------------------------------- exactness

  lemma {:induction false} NodeReached(kept: seq<Row>, roots: set<int>, found: map<int, Node>, c: int)
    requires TreeShaped(kept, roots, found) && c in found && c !in roots
    ensures found[c].root in roots && Reaches(kept, found[c].root, c)
    decreases found[c].depth
  {
    assert Placed(kept, roots, found, c);
    var parent := found[c].row.parent;
    var i :| 0 <= i < |kept| && kept[i] == found[c].row;
    assert Edge(kept, parent, c);
    assert Placed(kept, roots, found, parent);
    if parent in roots {
      EdgeReaches(kept, parent, c);
    } else {
      NodeReached(kept, roots, found, parent);
      ReachesFurther(kept, found[c].root, parent, c);
    }
  }

  /** A finished tree holds the roots and exactly the processes reached from a root over surviving ones. */
  lemma TreeIsExact(kept: seq<Row>, roots: set<int>, found: map<int, Node>, c: int)
    requires TreeShaped(kept, roots, found) && TreeExpanded(kept, found, {}) && roots <= found.Keys
    ensures c in found <==> c in roots || exists r | r in roots :: Reaches(kept, r, c)
  {
    if c in found && c !in roots { NodeReached(kept, roots, found, c); }
    forall r | r in roots && Reaches(kept, r, c) ensures c in found {
      ClosedHoldsReachable(kept, r, found.Keys);
    }
  }
}
