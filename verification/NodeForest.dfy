/** The node table of an imported scene: each node's parent, and the check that parents form a forest. */
module NodeForest {
  import opened DependencyGraph

  const MAX_NODES: nat := 4096

  /** `table[i]` is node `i`'s parent, or negative for a root. */
  ghost predicate TableOk(table: seq<int>) {
    forall i: nat :: i < |table| ==> -1 <= table[i] < |table|
  }

  /** A node's list of children is short, in range, without repeats, and shares none with an earlier node's. */
  ghost predicate RowOk(children: seq<seq<int>>, i: nat)
    requires i < |children|
  {
    && |children[i]| <= MAX_NODES && Distinct(children[i])
    && (forall c :: c in children[i] ==> 0 <= c < |children| && c != i)
    && (forall c, j: nat :: j < i && c in children[j] ==> c !in children[i])
  }

  ghost predicate RowsOk(children: seq<seq<int>>, n: nat)
    requires n <= |children|
  {
    forall i: nat :: i < n ==> RowOk(children, i)
  }

  /** `v` is the parent of `c` according to the rows before `i` and the first `a` children of row `i`. */
  ghost predicate ParentSoFar(children: seq<seq<int>>, i: nat, a: nat, c: nat, v: int)
    requires i < |children| && a <= |children[i]|
  {
    if v == -1 then (forall j: nat :: j < i ==> c !in children[j]) && c !in children[i][..a]
    else if v == i then c in children[i][..a]
    else 0 <= v < i && c in children[v]
  }

  method FillRow(children: seq<seq<int>>, i: nat, parents: array<int>) returns (ok: bool)
    requires i < |children| == parents.Length
    requires forall c: nat :: c < |children| ==> ParentSoFar(children, i, 0, c, parents[c])
    modifies parents
    ensures ok <==> RowOk(children, i)
    ensures ok ==> forall c: nat :: c < |children| ==> ParentSoFar(children, i, |children[i]|, c, parents[c])
  {
    var row := children[i];
    if |row| > MAX_NODES {
      return false;
    }
    var localChildren: set<int> := {};
    for a: nat := 0 to |row|
      invariant forall c: nat :: c < |children| ==> ParentSoFar(children, i, a, c, parents[c])
      invariant Distinct(row[..a]) && localChildren == set c | c in row[..a]
      invariant forall c :: c in row[..a] ==> 0 <= c < |children| && c != i
      invariant forall c, j: nat :: j < i && c in children[j] ==> c !in row[..a]
    {
      var child := row[a];
      assert child in row && row[..a + 1] == row[..a] + [child];
      if child < 0 || child >= |children| || child == i || child in localChildren || parents[child] != -1 {
        Rejected(children, i, a, if 0 <= child < |children| then parents[child] else -1);
        return false;
      }
      assert ParentSoFar(children, i, a, child, parents[child]);
      localChildren := localChildren + {child};
      parents[child] := i;
    }
    assert row[..|row|] == row;
    return true;
  }

  lemma Rejected(children: seq<seq<int>>, i: nat, a: nat, parent: int)
    requires i < |children| && a < |children[i]|
    requires var child := children[i][a];
             || child < 0 || child >= |children| || child == i || child in children[i][..a]
             || (parent != -1 && ParentSoFar(children, i, a, child, parent))
    ensures !RowOk(children, i)
  {
    var row := children[i];
    assert row[a] in row;
    if row[a] in row[..a] {
      var b: nat :| b < a && row[b] == row[a];
    }
  }

  /** Row `i` complete is row `i + 1` not yet begun. */
  lemma NextRow(children: seq<seq<int>>, i: nat, c: nat, v: int)
    requires i + 1 < |children| && ParentSoFar(children, i, |children[i]|, c, v)
    ensures ParentSoFar(children, i + 1, 0, c, v)
  {
    assert children[i][..|children[i]|] == children[i];
  }

  /** The parent table, when every row is acceptable: exactly the inverse of the children lists. */
  method BuildParents(children: seq<seq<int>>) returns (ok: bool, parents: array<int>)
    ensures parents.Length == |children| && fresh(parents)
    ensures ok <==> RowsOk(children, |children|)
    ensures ok ==> TableOk(parents[..])
    ensures ok ==> forall i: nat, c: nat :: i < |children| && c < |children| ==> (parents[c] == i <==> c in children[i])
  {
    parents := new int[|children|](_ => -1);
    for i: nat := 0 to |children|
      invariant RowsOk(children, i)
      invariant i < |children| ==> forall c: nat :: c < |children| ==> ParentSoFar(children, i, 0, c, parents[c])
      invariant i == |children| > 0 ==> forall c: nat :: c < |children| ==>
                ParentSoFar(children, i - 1, |children[i - 1]|, c, parents[c])
    {
      hide RowOk, ParentSoFar;
      ok := FillRow(children, i, parents);
      if !ok {
        return;
      }
      if i + 1 < |children| {
        forall c: nat | c < |children| ensures ParentSoFar(children, i + 1, 0, c, parents[c]) {
          NextRow(children, i, c, parents[c]);
        }
      }
    }
    forall c: nat | c < |children| ensures -1 <= parents[c] < |children|
        && forall i: nat :: i < |children| ==> (parents[c] == i <==> c in children[i]) {
      TableEntry(children, c, parents[c]);
    }
    return true, parents;
  }

  lemma TableEntry(children: seq<seq<int>>, c: nat, v: int)
    requires |children| > 0 && RowsOk(children, |children|)
    requires ParentSoFar(children, |children| - 1, |children[|children| - 1]|, c, v)
    ensures -1 <= v < |children|
    ensures forall i: nat :: i < |children| ==> (v == i <==> c in children[i])
  {
    var last := children[|children| - 1];
    assert last[..|last|] == last;
    forall i: nat | i < |children| ensures v == i <==> c in children[i] {
      assert RowOk(children, i);
      assert 0 <= v < |children| ==> RowOk(children, v);
    }
  }

  // The cycle check.

  function GraphOf(table: seq<int>): (g: Graph)
    ensures |g| == |table|
  {
    seq(|table|, i requires 0 <= i < |table| => if table[i] < 0 then [] else [table[i]])
  }

  lemma GraphEdges(table: seq<int>)
    requires TableOk(table)
    ensures WellFormed(GraphOf(table))
    ensures forall i: nat :: i < |table| && table[i] >= 0 ==> table[i] in GraphOf(table)[i]
  {}

  /** Every node in `depth` reaches a root through nodes in `depth`, in that many steps. */
  ghost predicate Grounded(table: seq<int>, depth: map<int, nat>) {
    forall i :: i in depth ==>
      && 0 <= i < |table|
      && (if table[i] < 0 then depth[i] == 0 else table[i] in depth && depth[i] == depth[table[i]] + 1)
  }

  /** The marks of a visit in progress: 1 along the path, 2 on what is settled. */
  ghost predicate Marks(visit: seq<int>, path: seq<nat>, depth: map<int, nat>) {
    && (forall i: nat :: i < |visit| ==> (visit[i] == 1 <==> i in path))
    && (forall i: nat :: i < |visit| ==> (visit[i] == 2 <==> i in depth))
  }

  ghost predicate Climbs(table: seq<int>, path: seq<nat>, node: nat) {
    Distinct(path) && |path| <= |table| && Walk(GraphOf(table), path + [node])
  }

  /** Meeting a node of the path again closes a cycle. */
  lemma PathCloses(table: seq<int>, path: seq<nat>, node: nat)
    requires Climbs(table, path, node) && node in path
    ensures !Acyclic(GraphOf(table))
  {
    var k: nat :| k < |path| && path[k] == node;
    var walk := path + [node];
    WalkSlice(GraphOf(table), walk, k, |walk|);
    var cycle := walk[k..|walk|];
    assert |cycle| >= 2 && cycle[0] == cycle[|cycle| - 1];
  }

  lemma PathExtends(table: seq<int>, path: seq<nat>, node: nat)
    requires TableOk(table) && Climbs(table, path, node) && node !in path && node < |table|
    requires table[node] >= 0
    ensures Climbs(table, path + [node], table[node])
  {
    GraphEdges(table);
    var longer := path + [node];
    WalkExtend(GraphOf(table), longer, table[node]);
    forall k: nat | k < |longer| ensures longer[k] < |table| {
      WalkStays(GraphOf(table), longer, k);
    }
    PathFits(longer, |table|);
  }

  lemma WalkStays(g: Graph, p: seq<nat>, k: nat)
    requires Walk(g, p) && k < |p|
    ensures p[k] < |g|
  {
    if k > 0 {
      assert Edge(g, p, k - 1);
    }
  }

  lemma PathFits(path: seq<nat>, n: nat)
    requires Distinct(path) && forall k: nat :: k < |path| ==> path[k] < n
    ensures |path| <= n
  {
    if |path| > n {
      var i, j := Pigeonhole(path, n);
    }
  }

  lemma PathHasRoom(table: seq<int>, path: seq<nat>, node: nat)
    requires Climbs(table, path, node) && node !in path
    ensures |path| < |table|
  {
    var longer := path + [node];
    forall k: nat | k < |longer| ensures longer[k] < |GraphOf(table)| {
      WalkStays(GraphOf(table), longer, k);
    }
    PathFits(longer, |table|);
  }

  method VisitNode(table: seq<int>, visit: array<int>, node: nat, ghost path: seq<nat>, ghost depth: map<int, nat>)
    returns (ok: bool, ghost after: map<int, nat>)
    requires TableOk(table) && visit.Length == |table| && node < |table|
    requires Climbs(table, path, node) && Marks(visit[..], path, depth) && Grounded(table, depth)
    modifies visit
    ensures !ok ==> !Acyclic(GraphOf(table))
    ensures ok ==> Marks(visit[..], path, after) && Grounded(table, after) && node in after && depth.Keys <= after.Keys
    decreases |table| - |path|
  {
    after := depth;
    hide Climbs, Grounded;
    assert visit[node] == visit[..][node];
    if visit[node] == 1 {
      PathCloses(table, path, node);
      return false, after;
    }
    if visit[node] == 2 {
      return true, after;
    }
    PathHasRoom(table, path, node);
    ghost var before := visit[..];
    visit[node] := 1;
    MarkPath(before, visit[..], path, depth, node);
    var parent := table[node];
    if parent >= 0 {
      PathExtends(table, path, node);
      ok, after := VisitNode(table, visit, parent, path + [node], depth);
      if !ok {
        return;
      }
    }
    ghost var middle := visit[..];
    visit[node] := 2;
    MarkSettled(middle, visit[..], path, after, node, if parent < 0 then 0 else after[parent] + 1);
    GroundMore(table, after, node, middle, path);
    after := after[node := if parent < 0 then 0 else after[parent] + 1];
    return true, after;
  }

  lemma MarkPath(before: seq<int>, after: seq<int>, path: seq<nat>, depth: map<int, nat>, node: nat)
    requires Marks(before, path, depth) && node < |before| && before[node] != 2 && after == before[node := 1]
    ensures Marks(after, path + [node], depth)
  {}

  lemma MarkSettled(before: seq<int>, after: seq<int>, path: seq<nat>, depth: map<int, nat>, node: nat, d: nat)
    requires Marks(before, path + [node], depth) && node < |before| && node !in path && after == before[node := 2]
    ensures Marks(after, path, depth[node := d])
  {}

  lemma GroundMore(table: seq<int>, depth: map<int, nat>, node: nat, visit: seq<int>, path: seq<nat>)
    requires TableOk(table) && node < |table| == |visit| && Grounded(table, depth) && Marks(visit, path + [node], depth)
    requires table[node] >= 0 ==> table[node] in depth
    ensures Grounded(table, depth[node := if table[node] < 0 then 0 else depth[table[node]] + 1])
  {
    assert visit[node] == 1 && node !in depth by {
      assert (path + [node])[|path|] == node;
    }
  }

  /** The exact distance of every node from its root. */
  ghost predicate Depths(table: seq<int>, depth: seq<nat>) {
    && TableOk(table) && |depth| == |table|
    && (forall i: nat :: i < |table| ==> if table[i] < 0 then depth[i] == 0 else depth[i] == depth[table[i]] + 1)
  }

  /** A node table with depths has no cycle. */
  lemma DepthsAreAcyclic(table: seq<int>, depth: seq<nat>)
    requires Depths(table, depth)
    ensures Acyclic(GraphOf(table))
  {
    forall p | Walk(GraphOf(table), p) && |p| >= 2 ensures p[0] != p[|p| - 1] {
      DepthFalls(table, depth, p);
    }
  }

  lemma {:induction false} DepthFalls(table: seq<int>, depth: seq<nat>, p: seq<nat>)
    requires Depths(table, depth) && Walk(GraphOf(table), p) && |p| >= 2
    ensures p[|p| - 1] < |table| && depth[p[|p| - 1]] < depth[p[0]]
  {
    var n := |p| - 1;
    assert Edge(GraphOf(table), p, n - 1);
    if |p| > 2 {
      WalkSlice(GraphOf(table), p, 0, n);
      DepthFalls(table, depth, p[0..n]);
    }
  }

  /** Visits every node; the table is accepted exactly when it is an acyclic forest. */
  method CheckForest(table: seq<int>) returns (ok: bool, ghost depth: seq<nat>)
    requires TableOk(table)
    ensures ok <==> Acyclic(GraphOf(table))
    ensures ok ==> Depths(table, depth)
  {
    var visit := new int[|table|](_ => 0);
    ghost var settled: map<int, nat> := map[];
    depth := [];
    hide Climbs, Grounded, Acyclic, Depths;
    NothingSettled(table);
    for node: nat := 0 to |table|
      invariant Marks(visit[..], [], settled) && Grounded(table, settled)
      invariant forall i: nat :: i < node ==> i in settled
    {
      ClimbStarts(table, node);
      ok, settled := VisitNode(table, visit, node, [], settled);
      if !ok {
        return;
      }
    }
    depth := DepthOf(table, settled);
    DepthsAreAcyclic(table, depth);
    return true, depth;
  }

  lemma NothingSettled(table: seq<int>)
    ensures Grounded(table, map[])
  {}

  lemma ClimbStarts(table: seq<int>, node: nat)
    requires node < |table|
    ensures Climbs(table, [], node)
  {}

  ghost function DepthOf(table: seq<int>, settled: map<int, nat>): (depth: seq<nat>)
    requires TableOk(table) && Grounded(table, settled) && forall i: nat :: i < |table| ==> i in settled
    ensures Depths(table, depth)
  {
    seq(|table|, i requires 0 <= i < |table| => settled[i])
  }

  /** Both passes over a scene's nodes: the children lists are consistent and their forest is acyclic. */
  method LoadNodes(children: seq<seq<int>>) returns (ok: bool, table: seq<int>, ghost depth: seq<nat>)
    ensures ok ==> RowsOk(children, |children|) && |table| == |children| && Depths(table, depth)
    ensures ok ==> forall i: nat, c: nat :: i < |children| && c < |children| ==> (table[c] == i <==> c in children[i])
    ensures !ok && RowsOk(children, |children|) ==>
              |table| == |children| && TableOk(table) && !Acyclic(GraphOf(table))
  {
    var built, parents := BuildParents(children);
    table, depth := parents[..], [];
    if !built {
      return false, table, depth;
    }
    hide RowsOk, Depths, Acyclic;
    ok, depth := CheckForest(table);
  }
}
