/** Directed graphs given as adjacency lists: walks, cycles, and ranks. */
module DependencyGraph {

  /** `g[u]` lists the units that `u` depends on. */
  type Graph = seq<seq<nat>>

  ghost predicate Distinct<T(!new)>(s: seq<T>) {
    forall i, j :: 0 <= i < j < |s| ==> s[i] != s[j]
  }

  ghost predicate WellFormed(g: Graph) {
    && (forall u, v :: 0 <= u < |g| && v in g[u] ==> v < |g|)
    && (forall u :: 0 <= u < |g| ==> Distinct(g[u]))
  }

  ghost predicate Edge(g: Graph, p: seq<nat>, k: nat)
    requires k + 1 < |p|
  {
    p[k] < |g| && p[k + 1] < |g| && p[k + 1] in g[p[k]]
  }

  /** `p` follows dependency edges from its first unit to its last. */
  ghost predicate Walk(g: Graph, p: seq<nat>) {
    && |p| > 0
    && p[0] < |g|
    && (forall k: nat :: k + 1 < |p| ==> Edge(g, p, k))
  }

  lemma WalkSlice(g: Graph, p: seq<nat>, i: nat, j: nat)
    requires Walk(g, p) && i < j <= |p|
    ensures Walk(g, p[i..j])
  {
    var c := p[i..j];
    forall k: nat | k + 1 < |c| ensures Edge(g, c, k) {
      assert Edge(g, p, i + k);
    }
    if i > 0 {
      assert Edge(g, p, i - 1);
    }
  }

  lemma WalkExtend(g: Graph, p: seq<nat>, v: nat)
    requires Walk(g, p) && p[|p| - 1] < |g| && v in g[p[|p| - 1]] && v < |g|
    ensures Walk(g, p + [v])
  {
    var q := p + [v];
    forall k: nat | k + 1 < |q| ensures Edge(g, q, k) {
      assert k + 1 < |p| ==> Edge(g, p, k);
    }
  }

  /** No walk of at least one edge returns to where it began. */
  ghost predicate Acyclic(g: Graph) {
    forall p :: Walk(g, p) && |p| >= 2 ==> p[0] != p[|p| - 1]
  }

  lemma LoopIsCycle(g: Graph, u: nat)
    requires u < |g| && u in g[u]
    ensures !Acyclic(g)
  {
    var p := [u, u];
    assert Edge(g, p, 0);
    assert Walk(g, p) && p[0] == p[|p| - 1];
  }

  /** Every unit ranks strictly above everything it depends on. */
  ghost predicate Ranked(g: Graph, rank: seq<nat>) {
    && |rank| == |g|
    && (forall u :: 0 <= u < |g| ==> rank[u] < |g|)
    && (forall u, v :: 0 <= u < |g| && v in g[u] ==> v < |g| && rank[v] < rank[u])
  }

  lemma {:induction false} RankFalls(g: Graph, rank: seq<nat>, p: seq<nat>)
    requires Ranked(g, rank) && Walk(g, p) && |p| >= 2
    ensures p[|p| - 1] < |g| && rank[p[|p| - 1]] < rank[p[0]]
  {
    assert Edge(g, p, 0) && Edge(g, p, |p| - 2);
    if |p| > 2 {
      WalkSlice(g, p, 1, |p|);
      assert p[1..|p|] == p[1..];
      RankFalls(g, rank, p[1..]);
    }
  }

  lemma RankedIsAcyclic(g: Graph, rank: seq<nat>)
    requires Ranked(g, rank)
    ensures Acyclic(g)
  {
    forall p | Walk(g, p) && |p| >= 2 ensures p[0] != p[|p| - 1] {
      RankFalls(g, rank, p);
    }
  }

  function UpTo(n: nat): (s: set<nat>)
    ensures |s| == n
    ensures forall k: nat :: k in s <==> k < n
  {
    if n == 0 then {} else UpTo(n - 1) + {n - 1}
  }

  lemma BoundedSet(s: set<nat>, n: nat)
    requires forall x :: x in s ==> x < n
    ensures |s| <= n
  {
    SubsetSize(s, UpTo(n));
  }

  lemma {:induction false} SubsetSize<T>(a: set<T>, b: set<T>)
    requires a <= b
    ensures |a| <= |b|
  {
    if a != {} {
      var x :| x in a;
      SubsetSize(a - {x}, b - {x});
    }
  }

  ghost function Elements<T>(p: seq<T>): set<T> {
    set x | x in p
  }

  lemma {:induction false} DistinctSize<T(!new)>(p: seq<T>)
    requires Distinct(p)
    ensures |Elements(p)| == |p|
  {
    if p != [] {
      DistinctSize(p[1..]);
      assert p == [p[0]] + p[1..];
      assert Elements(p) == Elements(p[1..]) + {p[0]};
    }
  }

  lemma Pigeonhole(p: seq<nat>, n: nat) returns (i: nat, j: nat)
    requires |p| > n
    requires forall k :: 0 <= k < |p| ==> p[k] < n
    ensures i < j < |p| && p[i] == p[j]
  {
    if Distinct(p) {
      DistinctSize(p);
      BoundedSet(Elements(p), n);
      assert false;
    }
    i, j :| 0 <= i < j < |p| && p[i] == p[j];
  }

  ghost predicate DependsInto(g: Graph, u: nat, s: set<nat>) {
    u < |g| && exists v :: v in g[u] && v in s
  }

  lemma {:induction false} StuckWalk(g: Graph, stuck: set<nat>, n: nat) returns (p: seq<nat>)
    requires WellFormed(g)
    requires stuck != {} && forall u :: u in stuck ==> DependsInto(g, u, stuck)
    ensures |p| == n + 1 && Walk(g, p) && p[n] in stuck
  {
    if n == 0 {
      var u :| u in stuck;
      assert DependsInto(g, u, stuck);
      p := [u];
    } else {
      p := StuckWalk(g, stuck, n - 1);
      assert DependsInto(g, p[n - 1], stuck);
      var v :| v in g[p[n - 1]] && v in stuck;
      WalkExtend(g, p, v);
      p := p + [v];
    }
  }

  /** A nonempty set in which everything depends on a member lies on a cycle. */
  lemma StuckSetHasCycle(g: Graph, stuck: set<nat>)
    requires WellFormed(g)
    requires stuck != {} && forall u :: u in stuck ==> DependsInto(g, u, stuck)
    ensures !Acyclic(g)
  {
    var p := StuckWalk(g, stuck, |g|);
    forall k | 0 <= k < |p| ensures p[k] < |g| {
      WalkSlice(g, p, k, |p|);
    }
    var i, j := Pigeonhole(p, |g|);
    WalkSlice(g, p, i, j + 1);
    var c := p[i..j + 1];
    assert c[0] == c[|c| - 1];
  }

  lemma AcyclicHasRank(g: Graph) returns (rank: seq<nat>)
    requires WellFormed(g) && Acyclic(g)
    ensures Ranked(g, rank)
  {
    hide Acyclic;
    rank := seq(|g|, i => 0);
    var done: set<nat> := {};
    while |done| < |g|
      invariant forall u :: u in done ==> u < |g|
      invariant |done| <= |g| == |rank|
      invariant forall u :: u in done ==> rank[u] < |done|
      invariant forall u, v :: u in done && v in g[u] ==> v in done && rank[v] < rank[u]
      decreases |g| - |done|
    {
      var u := NextSource(g, done);
      rank := rank[u := |done|];
      done := done + {u};
      BoundedSet(done, |g|);
    }
    FullSubset(done, UpTo(|g|));
  }

  lemma NextSource(g: Graph, done: set<nat>) returns (u: nat)
    requires WellFormed(g) && Acyclic(g)
    requires |done| < |g| && forall u :: u in done ==> u < |g|
    ensures u < |g| && u !in done && forall v :: v in g[u] ==> v in done
  {
    var stuck := UpTo(|g|) - done;
    if forall u :: u in stuck ==> DependsInto(g, u, stuck) {
      assert UpTo(|g|) == done + stuck;
      StuckSetHasCycle(g, stuck);
      assert false;
    }
    u :| u in stuck && !DependsInto(g, u, stuck);
  }

  lemma {:induction false} FullSubset<T>(a: set<T>, b: set<T>)
    requires a <= b && |a| >= |b|
    ensures a == b
  {
    if x :| x in b && x !in a {
      SubsetSize(a, b - {x});
    }
  }
}
