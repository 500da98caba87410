/** In which order processes are stopped: deepest first, so that a parent outlives its children. */
module KillOrder {
  import opened ProcessTree

  /** How far the depth walk gets from `pid` when `seen` has been visited. */
  function Walk(byPid: map<int, Row>, pid: int, seen: set<int>): nat
    decreases |byPid.Keys - seen|
  {
    if pid !in byPid || pid in seen || byPid[pid].parent !in byPid then 0
    else
      FewerUnseen(byPid.Keys, seen, pid);
      1 + Walk(byPid, byPid[pid].parent, seen + {pid})
  }

  lemma FewerUnseen(all: set<int>, seen: set<int>, pid: int)
    requires pid in all && pid !in seen
    ensures |all - (seen + {pid})| < |all - seen|
  {
    SetSmaller(all - (seen + {pid}), all - seen);
  }

  /** The depth walk: it terminates on every table, cyclic parents included. */
  method Depth(byPid: map<int, Row>, pid: int) returns (depth: nat)
    ensures depth == Walk(byPid, pid, {})
  {
    var seen: set<int> := {};
    var current := pid;
    depth := 0;
    while current in byPid && current !in seen
      invariant depth + Walk(byPid, current, seen) == Walk(byPid, pid, {})
      decreases |byPid.Keys - seen|
    {
      FewerUnseen(byPid.Keys, seen, current);
      seen := seen + {current};
      var parent := byPid[current].parent;
      if parent !in byPid { break; }
      current := parent;
      depth := depth + 1;
    }
  }

  /** `a` is `k` listed parents above `pid`. */
  predicate Above(byPid: map<int, Row>, a: int, pid: int, k: nat)
    decreases k
  {
    pid in byPid && if k == 0 then a == pid else Above(byPid, a, byPid[pid].parent, k - 1)
  }

  ghost predicate Acyclic(byPid: map<int, Row>) {
    forall v, k: nat | k > 0 :: !Above(byPid, v, v, k)
  }

  /** None of the visited processes is above `pid`. */
  ghost predicate NotAbove(byPid: map<int, Row>, seen: set<int>, pid: int) {
    forall x, k: nat | x in seen :: !Above(byPid, x, pid, k)
  }

  /** On an acyclic table the visited set never matters. */
  lemma {:induction false} SeenIrrelevant(byPid: map<int, Row>, pid: int, seen: set<int>, seen': set<int>)
    requires Acyclic(byPid) && NotAbove(byPid, seen, pid) && NotAbove(byPid, seen', pid)
    ensures Walk(byPid, pid, seen) == Walk(byPid, pid, seen')
    decreases |byPid.Keys - seen|
  {
    if pid in byPid {
      assert Above(byPid, pid, pid, 0);
      if byPid[pid].parent in byPid {
        var parent := byPid[pid].parent;
        FewerUnseen(byPid.Keys, seen, pid);
        StillNotAbove(byPid, pid, seen);
        StillNotAbove(byPid, pid, seen');
        SeenIrrelevant(byPid, parent, seen + {pid}, seen' + {pid});
      }
    }
  }

  lemma StillNotAbove(byPid: map<int, Row>, pid: int, seen: set<int>)
    requires Acyclic(byPid) && NotAbove(byPid, seen, pid) && pid in byPid
    ensures NotAbove(byPid, seen + {pid}, byPid[pid].parent)
  {
    forall x, k: nat | x in seen + {pid} ensures !Above(byPid, x, byPid[pid].parent, k) {
      assert Above(byPid, x, pid, k + 1) == Above(byPid, x, byPid[pid].parent, k);
    }
  }

  /** A listed child is one deeper than its listed parent. */
  lemma DeeperThanParent(byPid: map<int, Row>, pid: int)
    requires Acyclic(byPid) && pid in byPid && byPid[pid].parent in byPid
    ensures Walk(byPid, pid, {}) == 1 + Walk(byPid, byPid[pid].parent, {})
  {
    StillNotAbove(byPid, pid, {});
    SeenIrrelevant(byPid, byPid[pid].parent, {pid}, {});
    assert {} + {pid} == {pid};
  }

  lemma {:induction false} DeeperThanAncestor(byPid: map<int, Row>, a: int, pid: int, k: nat)
    requires Acyclic(byPid) && Above(byPid, a, pid, k) && a in byPid
    ensures Walk(byPid, pid, {}) == k + Walk(byPid, a, {})
    decreases k
  {
    if k > 0 {
      DeeperThanAncestor(byPid, a, byPid[pid].parent, k - 1);
      AboveIsListed(byPid, a, byPid[pid].parent, k - 1);
      DeeperThanParent(byPid, pid);
    }
  }

  /** So the depth of a process is how far it is below its topmost listed ancestor. */
  lemma DepthIsDistance(byPid: map<int, Row>, top: int, pid: int, k: nat)
    requires Acyclic(byPid) && Above(byPid, top, pid, k) && top in byPid && byPid[top].parent !in byPid
    ensures Walk(byPid, pid, {}) == k
  {
    DeeperThanAncestor(byPid, top, pid, k);
  }

  lemma AboveIsListed(byPid: map<int, Row>, a: int, pid: int, k: nat)
    requires Above(byPid, a, pid, k)
    ensures pid in byPid
  {
  }

  // ---------------------------------------------------------------- the order

  /** Sorted by (depth, pid), largest first. */
  predicate Before(depths: map<int, nat>, p: int, q: int)
    requires p in depths && q in depths
  {
    depths[p] > depths[q] || (depths[p] == depths[q] && p >= q)
  }

  predicate SortedDeepestFirst(order: seq<int>, depths: map<int, nat>) {
    && (forall i | 0 <= i < |order| :: order[i] in depths)
    && (forall i, j | 0 <= i < j < |order| :: Before(depths, order[i], order[j]))
  }

  /** The order is the only one: by falling depth, and among equally deep processes by falling pid. */
  lemma OrderExactly(order: seq<int>, depths: map<int, nat>, i: nat, j: nat)
    requires SortedDeepestFirst(order, depths) && Unique(order) && i < |order| && j < |order|
    ensures i < j <==> depths[order[i]] > depths[order[j]]
                       || (depths[order[i]] == depths[order[j]] && order[i] > order[j])
  {
    assert i < j ==> Before(depths, order[i], order[j]);
    assert j < i ==> Before(depths, order[j], order[i]);
  }

  /** Put a pid where it belongs. */
  function InsertPid(order: seq<int>, depths: map<int, nat>, p: int): seq<int>
    requires p in depths && forall i | 0 <= i < |order| :: order[i] in depths
  {
    if order == [] then [p]
    else if Before(depths, p, order[0]) then [p] + order
    else [order[0]] + InsertPid(order[1..], depths, p)
  }

  lemma {:induction false} InsertMembers(order: seq<int>, depths: map<int, nat>, p: int)
    requires p in depths && forall i | 0 <= i < |order| :: order[i] in depths
    ensures forall x :: x in InsertPid(order, depths, p) <==> x in order || x == p
    ensures |InsertPid(order, depths, p)| == |order| + 1
  {
    if order != [] {
      InsertMembers(order[1..], depths, p);
      assert order == [order[0]] + order[1..];
    }
  }

  lemma {:induction false} InsertUnique(order: seq<int>, depths: map<int, nat>, p: int)
    requires p in depths && forall i | 0 <= i < |order| :: order[i] in depths
    requires Unique(order) && p !in order
    ensures Unique(InsertPid(order, depths, p))
  {
    if order != [] && !Before(depths, p, order[0]) {
      assert order == [order[0]] + order[1..];
      InsertUnique(order[1..], depths, p);
      InsertMembers(order[1..], depths, p);
      assert order[0] !in order[1..];
    }
  }

  lemma {:induction false} InsertSorted(order: seq<int>, depths: map<int, nat>, p: int)
    requires SortedDeepestFirst(order, depths) && p in depths
    ensures SortedDeepestFirst(InsertPid(order, depths, p), depths)
  {
    if order != [] && !Before(depths, p, order[0]) {
      var rest := InsertPid(order[1..], depths, p);
      InsertSorted(order[1..], depths, p);
      InsertMembers(order[1..], depths, p);
      forall x | x in rest ensures Before(depths, order[0], x) {
        if x in order[1..] { var k :| 0 <= k < |order[1..]| && order[1..][k] == x; assert order[k + 1] == x; }
      }
    } else if order != [] {
      forall k | 0 <= k < |order| ensures Before(depths, p, order[k]) {
        assert k > 0 ==> Before(depths, order[0], order[k]);
      }
    }
  }

  /** The inventory keyed by pid; of several rows for one pid the last counts. */
  method IndexByPid(rows: seq<Row>) returns (byPid: map<int, Row>, pids: seq<int>)
    ensures byPid.Keys == (set r | r in rows && r.pid > 0 :: r.pid) && Lists(pids, byPid.Keys)
    ensures forall p | p in byPid :: byPid[p] in rows && byPid[p].pid == p && p > 0 && LastRow(rows, byPid[p])
  {
    byPid, pids := map[], [];
    for i := 0 to |rows|
      invariant byPid.Keys == (set r | r in rows[..i] && r.pid > 0 :: r.pid) && Lists(pids, byPid.Keys)
      invariant forall p | p in byPid :: byPid[p] in rows[..i] && byPid[p].pid == p && p > 0
      invariant forall p | p in byPid :: LastRow(rows[..i], byPid[p])
    {
      LastRowNext(rows, i);
      assert rows[..i + 1] == rows[..i] + [rows[i]];
      if rows[i].pid > 0 {
        if rows[i].pid !in byPid { pids := pids + [rows[i].pid]; }
        byPid := byPid[rows[i].pid := rows[i]];
      }
    }
    assert rows[..|rows|] == rows;
  }

  /** The depths of all listed processes, and their pids sorted by decreasing depth. */
  method StopOrder(byPid: map<int, Row>, pids: seq<int>) returns (depths: map<int, nat>, order: seq<int>)
    requires Lists(pids, byPid.Keys)
    ensures depths.Keys == byPid.Keys && forall p | p in byPid :: depths[p] == Walk(byPid, p, {})
    ensures SortedDeepestFirst(order, depths) && Lists(order, byPid.Keys)
  {
    depths := map[];
    for i := 0 to |pids|
      invariant depths.Keys == set x | x in pids[..i]
      invariant forall p | p in depths :: depths[p] == Walk(byPid, p, {})
    {
      var depth := Depth(byPid, pids[i]);
      assert pids[..i + 1] == pids[..i] + [pids[i]];
      depths := depths[pids[i] := depth];
    }
    assert pids[..|pids|] == pids;
    order := DeepestFirst(pids, depths);
    forall p ensures p in order <==> p in byPid { assert p in pids <==> p in byPid.Keys; }
  }

  /** Insertion sort of the pids. */
  method DeepestFirst(pids: seq<int>, depths: map<int, nat>) returns (order: seq<int>)
    requires Unique(pids) && forall p | p in pids :: p in depths
    ensures SortedDeepestFirst(order, depths) && Unique(order) && forall p :: p in order <==> p in pids
  {
    order := [];
    for i := 0 to |pids|
      invariant SortedDeepestFirst(order, depths) && Unique(order)
      invariant forall p :: p in order <==> p in pids[..i]
    {
      assert pids[i] in pids;
      assert pids[..i + 1] == pids[..i] + [pids[i]];
      InsertSorted(order, depths, pids[i]);
      InsertMembers(order, depths, pids[i]);
      InsertUnique(order, depths, pids[i]);
      order := InsertPid(order, depths, pids[i]);
    }
    assert pids[..|pids|] == pids;
  }

  /** On an acyclic table every process is stopped before each of its listed ancestors. */
  lemma ChildrenBeforeAncestors(byPid: map<int, Row>, depths: map<int, nat>, order: seq<int>, i: nat, j: nat, k: nat)
    requires Acyclic(byPid) && SortedDeepestFirst(order, depths)
    requires depths.Keys == byPid.Keys && forall p | p in byPid :: depths[p] == Walk(byPid, p, {})
    requires i < |order| && j < |order| && k > 0 && Above(byPid, order[j], order[i], k)
    ensures i < j
  {
    DeeperThanAncestor(byPid, order[j], order[i], k);
    assert j < i ==> Before(depths, order[j], order[i]);
  }
}
