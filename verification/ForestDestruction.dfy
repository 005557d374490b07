/** Destruction on whole forests: child by child, and exactly what it keeps. */
module ForestDestruction {
  import opened DependencyGraph
  import opened Options
  import opened ForestState
  import opened ForestMoves

  // ---- Marking

  ghost function Marked(f: Forest, x: Id): Forest {
    f.(destroyed := f.destroyed + {x})
  }

  lemma SameTreeLinked(f: Forest, g: Forest, depth: map<Id, nat>)
    requires Linked(f, depth) && g.ids == f.ids && g.parent == f.parent && g.children == f.children
    ensures Linked(g, depth)
  {}

  lemma {:induction false} SameTreeRoots(f: Forest, g: Forest, depth: map<Id, nat>, y: Id)
    requires Linked(f, depth) && Linked(g, depth) && g.ids == f.ids && g.parent == f.parent && y in f.ids
    ensures Root(g, depth, y) == Root(f, depth, y)
    decreases depth[y]
  {
    if y in f.parent {
      SameTreeRoots(f, g, depth, f.parent[y]);
    }
  }

  lemma MarkSound(limit: nat, f: Forest, depth: map<Id, nat>, dying: set<Id>, x: Id)
    requires Sound(limit, f, depth, dying) && x in f.ids
    ensures Sound(limit, Marked(f, x), depth, dying + {x})
  {
    var g := Marked(f, x);
    SameTreeLinked(f, g, depth);
    hide Linked;
    forall m ensures OwnedBy(g, m) == OwnedBy(f, m) {}
    hide OwnedBy;
  }

  lemma MarkHomes(f: Forest, depth: map<Id, nat>, x: Id)
    requires Linked(f, depth) && Linked(Marked(f, x), depth)
    ensures Homes(Marked(f, x), depth) == Homes(f, depth)
  {
    hide Linked;
    var g := Marked(f, x);
    forall y | y in f.ids ensures DataModelOf(g, depth, y) == DataModelOf(f, depth, y) {
      SameTreeRoots(f, g, depth, y);
    }
    hide DataModelOf;
  }

  lemma MarkPruned(f: Forest, home: map<Id, Option<Id>>, x: Id, gone: set<Id>)
    ensures Prune(Marked(f, x), home, gone + {x}) == Prune(f, home, gone + {x})
  {
    assert f.destroyed + {x} + (gone + {x}) == f.destroyed + (gone + {x});
  }

  lemma MarkSubtree(f: Forest, x: Id, t: set<Id>)
    requires IsSubtree(Marked(f, x), x, t)
    ensures IsSubtree(f, x, t)
  {}

  // ---- The children, one after another

  /** The first `i` children of `x`, with all below them, are gone. */
  ghost predicate Sweep(f: Forest, x: Id, copy: seq<Id>, i: nat, gone: set<Id>) {
    && x in f.children && copy == f.children[x] && i <= |copy|
    && x !in gone && gone <= f.ids && f.children.Keys == f.ids
    && (forall y, c :: y in gone && c in f.children[y] ==> c in gone)
    && (forall y :: y in gone ==> y in f.parent && (f.parent[y] in gone || f.parent[y] == x))
    && (forall k :: 0 <= k < i ==> copy[k] in gone)
    && (forall k :: i <= k < |copy| ==> copy[k] !in gone)
  }

  lemma SweepStart(limit: nat, f: Forest, depth: map<Id, nat>, home: map<Id, Option<Id>>, x: Id)
    requires Linked(f, depth) && Bounded(limit, f) && x in f.ids
    ensures Sweep(f, x, f.children[x], 0, {}) && Prune(f, home, {}) == f
  {
    PruneNothing(limit, f, home);
  }

  lemma FewerLeft(f: Forest, home: map<Id, Option<Id>>, gone: set<Id>, x: Id)
    requires x in f.ids && x !in f.destroyed
    ensures var g := Prune(Marked(f, x), home, gone); |g.ids - g.destroyed| < |f.ids - f.destroyed|
  {
    hide PrunedChildren, PrunedCount, PrunedOwner;
    var g := Prune(Marked(f, x), home, gone);
    SubsetSize(g.ids - g.destroyed, f.ids - f.destroyed - {x});
  }

  lemma ChildAt(f: Forest, depth: map<Id, nat>, y: Id, c: Id)
    requires Linked(f, depth) && y in f.ids && c in f.children[y]
    ensures c in f.ids && c in f.parent && f.parent[c] == y && y in depth && c in depth && depth[y] < depth[c]
  {}

  lemma SweepNext(limit: nat, f: Forest, home: map<Id, Option<Id>>, depth: map<Id, nat>, dying: set<Id>, x: Id,
                  i: nat, gone: set<Id>)
    requires Sound(limit, f, depth, dying + {x}) && x in f.ids && i < |f.children[x]|
             && Sweep(f, x, f.children[x], i, gone)
    requires forall d :: d in dying ==> d in depth && depth[d] < depth[x]
    ensures var c, g := f.children[x][i], Prune(f, home, gone);
            && c in g.ids && c !in g.destroyed && c in depth
            && forall d :: d in dying + {x} ==> d in depth && depth[d] < depth[c]
  {
    hide Owners, Bounded, Linked, PrunedChildren, PrunedCount, PrunedOwner;
    var c := f.children[x][i];
    assert c in f.children[x];
    ChildAt(f, depth, x, c);
  }

  lemma SweepStep(f: Forest, home: map<Id, Option<Id>>, depth: map<Id, nat>, x: Id, i: nat, gone: set<Id>,
                  below: set<Id>)
    requires Linked(f, depth) && Linked(Prune(f, home, gone), depth)
    requires x in f.ids && i < |f.children[x]| && Sweep(f, x, f.children[x], i, gone)
    requires IsSubtree(Prune(f, home, gone), f.children[x][i], below)
    ensures Sweep(f, x, f.children[x], i + 1, gone + below) && gone !! below
  {
    hide Linked, Prune, Sweep, IsSubtree;
    LinkedAt(f, depth, x);
    var c := f.children[x][i];
    assert c in f.children[x];
    ChildAt(f, depth, x, c);
    SweepNotYet(f, x, i, gone);
    BelowIsNew(f, home, depth, x, gone, c, below);
    BelowIsClosed(f, home, gone, c, below);
    SweepRest(f, depth, x, i, below);
    SweepJoin(f, x, i, gone, below);
  }

  lemma SweepNotYet(f: Forest, x: Id, i: nat, gone: set<Id>)
    requires x in f.children && i < |f.children[x]| && Sweep(f, x, f.children[x], i, gone)
    ensures f.children[x][i] !in gone && f.children.Keys == f.ids
    ensures forall z, c :: z in gone && z in f.children && c in f.children[z] ==> c in gone
  {}

  lemma SweepJoin(f: Forest, x: Id, i: nat, gone: set<Id>, below: set<Id>)
    requires x in f.children && i < |f.children[x]| && Sweep(f, x, f.children[x], i, gone)
    requires f.children[x][i] in f.parent && f.parent[f.children[x][i]] == x && f.children[x][i] in below
    requires x !in below && below <= f.ids
    requires forall y :: y in below && y != f.children[x][i] ==> y in f.parent && y !in gone && f.parent[y] in below
    requires forall y, z :: y in below && y !in gone && z in f.children[y] ==> z in below || z in gone
    requires forall k :: i < k < |f.children[x]| ==> f.children[x][k] !in below
    ensures Sweep(f, x, f.children[x], i + 1, gone + below)
  {}

  lemma BelowIsNew(f: Forest, home: map<Id, Option<Id>>, depth: map<Id, nat>, x: Id, gone: set<Id>, c: Id,
                   below: set<Id>)
    requires Linked(Prune(f, home, gone), depth) && IsSubtree(Prune(f, home, gone), c, below)
    requires x in depth && c in depth && depth[x] < depth[c] && c !in gone
    ensures x !in below && forall y :: y in below && y != c ==> y in f.parent && y !in gone && f.parent[y] in below
    ensures gone !! below
  {
    hide Linked, PrunedChildren, PrunedCount, PrunedOwner;
    if x in below {
      SubtreeDeeper(Prune(f, home, gone), depth, c, below, x);
    }
  }

  lemma BelowIsClosed(f: Forest, home: map<Id, Option<Id>>, gone: set<Id>, c: Id, below: set<Id>)
    requires IsSubtree(Prune(f, home, gone), c, below) && f.children.Keys == f.ids
    ensures c in below && below <= f.ids
    ensures forall y, z :: y in below && y !in gone && z in f.children[y] ==> z in below || z in gone
  {
    hide PrunedCount, PrunedOwner, Without;
    forall y, z | y in below && y !in gone && z in f.children[y] && z !in gone ensures z in below {
      assert z in Without(f.children[y], gone);
      assert z in Prune(f, home, gone).children[y];
    }
  }

  /** The later siblings are not below this one. */
  lemma SweepRest(f: Forest, depth: map<Id, nat>, x: Id, i: nat, below: set<Id>)
    requires Linked(f, depth) && x in f.ids && x in f.children && i < |f.children[x]| && x !in below
    requires forall y :: y in below && y != f.children[x][i] ==> y in f.parent && f.parent[y] in below
    ensures forall k :: i < k < |f.children[x]| ==> f.children[x][k] !in below
  {
    hide Linked;
    forall k | i < k < |f.children[x]| ensures f.children[x][k] !in below {
      ChildListed(f, depth, x, i, k);
    }
  }

  lemma ChildListed(f: Forest, depth: map<Id, nat>, x: Id, i: nat, k: nat)
    requires Linked(f, depth) && x in f.ids && i < k < |f.children[x]|
    ensures f.children[x][k] != f.children[x][i] && f.children[x][k] in f.parent && f.parent[f.children[x][k]] == x
  {
    assert f.children[x][k] in f.children[x];
    assert Distinct(f.children[x]);
  }

  /** A further subtree of `x` goes: what it answered to is still what it answered to at first. */
  lemma SweepPrune(f: Forest, home: map<Id, Option<Id>>, depth: map<Id, nat>, x: Id, i: nat, gone: set<Id>,
                   below: set<Id>)
    requires Linked(f, depth) && home == Homes(f, depth) && Linked(Prune(f, home, gone), depth)
    requires x in f.ids && i < |f.children[x]| && Sweep(f, x, f.children[x], i, gone) && gone !! below && below <= f.ids
    ensures Prune(Prune(f, home, gone), Homes(Prune(f, home, gone), depth), below) == Prune(f, home, gone + below)
  {
    hide Linked, Sweep, DataModelOf;
    LinkedAt(f, depth, x);
    SweepNotYet(f, x, i, gone);
    var g := Prune(f, home, gone);
    assert g.ids == f.ids;
    forall y | y in below ensures Homes(g, depth)[y] == home[y] {
      PrunedHome(f, home, depth, gone, y);
    }
    hide Prune;
    PruneSameHomes(g, Homes(g, depth), home, below);
    PruneTwice(f, home, gone, below);
  }

  /** All children gone: only `x` itself is left below `x`, and it answers as before. */
  lemma SweepDone(f: Forest, home: map<Id, Option<Id>>, depth: map<Id, nat>, x: Id, gone: set<Id>)
    requires Linked(f, depth) && x in f.ids && Sweep(f, x, f.children[x], |f.children[x]|, gone)
    requires Linked(Prune(f, home, gone), depth)
    ensures IsSubtree(f, x, gone + {x}) && x !in gone
    ensures x in Prune(f, home, gone).children && f.destroyed <= Prune(f, home, gone).destroyed
    ensures Prune(f, home, gone).children[x] == [] && Subtree(Prune(f, home, gone), depth, x) == {x}
    ensures DataModelOf(Prune(f, home, gone), depth, x) == DataModelOf(f, depth, x)
  {
    hide Linked, PrunedCount, PrunedOwner, Without, DataModelOf;
    var g := Prune(f, home, gone);
    NothingWithout(f.children[x], gone);
    assert IsSubtree(g, x, {x});
    SubtreeIs(g, depth, x);
    SubtreeUnique(g, depth, x, {x}, Subtree(g, depth, x));
    PrunedHome(f, home, depth, gone, x);
  }

  lemma NothingWithout(s: seq<Id>, gone: set<Id>)
    requires forall k :: 0 <= k < |s| ==> s[k] in gone
    ensures Without(s, gone) == []
  {}

  // ---- The instance itself, once childless

  function OneFewer(count: map<Id, nat>, m: Id): map<Id, nat>
    requires m in count
  {
    if count[m] > 1 then count[m := count[m] - 1] else count
  }

  function Disowned(f: Forest, x: Id, model: Option<Id>): Forest
    requires model.Some? && model.value != x ==> model.value in f.count
  {
    if model.Some? && model.value != x then f.(owner := f.owner - {x}, count := OneFewer(f.count, model.value)) else f
  }

  lemma CutLeaf(g: Forest, depth: map<Id, nat>, x: Id)
    requires Linked(g, depth) && x in g.children && g.children[x] == []
    ensures x in g.parent ==> g.parent[x] in g.children
    ensures x in Cut(g, x).children && Cut(g, x).children[x] == [] && x !in Cut(g, x).parent
  {
    hide TidyLists, DownLinks;
  }

  lemma LeafChildren(g: Forest, depth: map<Id, nat>, x: Id)
    requires Linked(g, depth) && x in g.children && g.children[x] == []
    ensures x in g.parent ==> g.parent[x] in g.children
    ensures Cut(g, x).children == PrunedChildren(g.children, {x})
  {
    hide UpLinks, Deepening, TidyLists, Erase, Without;
    if x in g.parent {
      ParentAt(g, x);
      EraseTidy(g, x);
      CutLeaf(g, depth, x);
    }
    forall y | y in g.children && (x !in g.parent || y != g.parent[x]) ensures Without(g.children[y], {x})
      == g.children[y] {
      WithoutSame(g.children[y], {x});
    }
  }

  lemma LeafCount(count: map<Id, nat>, home: map<Id, Option<Id>>, x: Id)
    requires x in home && (forall m :: m in count ==> count[m] >= 1)
    requires home[x].Some? ==> home[x].value in count
    ensures PrunedCount(count, home, {x})
            == if home[x].Some? && home[x].value != x then OneFewer(count, home[x].value) else count
  {
    forall m | m in count ensures |Releasing(home, {x}, m)| == if home[x] == Some(m) && x != m then 1 else 0 {
      assert Releasing(home, {x}, m) == if home[x] == Some(m) && x != m then {x} else {};
    }
    hide Releasing;
  }

  lemma LeafOwner(g: Forest, x: Id, model: Option<Id>)
    requires x in g.owner ==> model == Some(g.owner[x])
    ensures PrunedOwner(g.owner, {x}) == if model.Some? && model.value != x then g.owner - {x} else g.owner
  {}

  /** Taking a childless `x` out is pruning it, and the forest stays sound. */
  lemma LeafGone(limit: nat, g: Forest, depth: map<Id, nat>, dying: set<Id>, x: Id, home: map<Id, Option<Id>>,
                 h: Forest)
    requires Sound(limit, g, depth, dying + {x}) && x in g.ids && x in g.destroyed && x in g.children
             && g.children[x] == []
    requires x in home && home[x] == DataModelOf(g, depth, x) && (home[x].Some? ==> home[x].value in g.count)
    requires (x in g.parent ==> g.parent[x] in g.children) && h == Disowned(Cut(g, x), x, home[x])
    ensures h == Prune(g, home, {x}) && Sound(limit, h, depth, dying)
  {
    LeafModel(g, depth, x);
    hide Linked, Owners, Bounded, Retired, PrunedChildren, PrunedCount, PrunedOwner, OneFewer, DataModelOf, Cut;
    CutSound(limit, g, depth, dying + {x}, x);
    CutFields(g, x);
    CutLeaf(g, depth, x);
    LeafSound(limit, Cut(g, x), depth, dying, x, home[x], h);
    LeafPruned(limit, g, depth, x, home, h);
  }

  lemma LeafPruned(limit: nat, g: Forest, depth: map<Id, nat>, x: Id, home: map<Id, Option<Id>>, h: Forest)
    requires Linked(g, depth) && Bounded(limit, g) && x in g.destroyed && x in g.children && g.children[x] == []
    requires x in home && (x in g.owner ==> home[x] == Some(g.owner[x])) && (home[x].Some? ==> home[x].value in g.count)
    requires (x in g.parent ==> g.parent[x] in g.children) && h == Disowned(Cut(g, x), x, home[x])
    ensures h == Prune(g, home, {x})
  {
    LeafOnes(limit, g);
    hide Linked, Bounded, PrunedChildren, PrunedCount, PrunedOwner, OneFewer, Cut;
    CutFields(g, x);
    LeafChildren(g, depth, x);
    LeafCount(g.count, home, x);
    LeafOwner(g, x, home[x]);
    assert g.destroyed + {x} == g.destroyed;
  }

  lemma LeafOnes(limit: nat, g: Forest)
    requires Bounded(limit, g)
    ensures forall m :: m in g.count ==> g.count[m] >= 1
  {}

  lemma LeafModel(g: Forest, depth: map<Id, nat>, x: Id)
    requires Linked(g, depth) && x in g.ids
    ensures x in g.owner ==> DataModelOf(g, depth, x) == Some(g.owner[x])
  {}

  lemma LeafSound(limit: nat, f: Forest, depth: map<Id, nat>, dying: set<Id>, x: Id, model: Option<Id>, h: Forest)
    requires Sound(limit, f, depth, dying + {x}) && x in f.ids && x !in f.parent && x in f.children
             && f.children[x] == []
    requires x in f.owner ==> model == Some(f.owner[x])
    requires (model.Some? ==> model.value in f.count) && h == Disowned(f, x, model)
    ensures Sound(limit, h, depth, dying)
  {
    hide Linked, Bounded, Owners, Retired, OneFewer;
    SameTreeLinked(f, h, depth);
    LeafBounded(limit, f, x, model, h);
    LeafRetired(f, dying, x, model, h);
  }

  lemma LeafRetired(f: Forest, dying: set<Id>, x: Id, model: Option<Id>, h: Forest)
    requires Retired(f, dying + {x}) && Owners(f) && x !in f.parent && x in f.children && f.children[x] == []
    requires x in f.owner ==> model == Some(f.owner[x])
    requires (model.Some? ==> model.value in f.count) && h == Disowned(f, x, model)
    ensures Retired(h, dying) && Owners(h)
  {
    hide OneFewer;
  }

  lemma LeafBounded(limit: nat, f: Forest, x: Id, model: Option<Id>, h: Forest)
    requires Bounded(limit, f) && (x in f.owner ==> model == Some(f.owner[x]))
    requires (model.Some? ==> model.value in f.count) && h == Disowned(f, x, model)
    ensures Bounded(limit, h)
  {
    forall m | m in f.models ensures 1 <= h.count[m] <= limit && h.count[m] <= 1 + |OwnedBy(h, m)| {
      OwnedByLess(f, x, model, h, m);
    }
  }

  /** A destroyed instance leaves the set of its recorded owner, unless it owned itself. */
  lemma OwnedByLess(f: Forest, x: Id, model: Option<Id>, h: Forest, m: Id)
    requires x in f.owner ==> model == Some(f.owner[x])
    requires (model.Some? ==> model.value in f.count) && h == Disowned(f, x, model)
    ensures |OwnedBy(h, m)| == |OwnedBy(f, m)| - if x in f.owner && f.owner[x] == m && m != x then 1 else 0
  {
    if x in f.owner && f.owner[x] == m && m != x {
      assert OwnedBy(h, m) == OwnedBy(f, m) - {x};
    } else {
      assert OwnedBy(h, m) == OwnedBy(f, m);
    }
  }

  // ---- Exactly what destruction keeps

  /** Nodes that answer to `m` only because it is their root; `m` never counted them. */
  ghost function Strays(f: Forest, depth: map<Id, nat>, t: set<Id>, m: Id): set<Id>
    requires Linked(f, depth) && t <= f.ids
  {
    set y | y in t && y !in f.owner && Root(f, depth, y) == m && y != m
  }

  /** Nothing stray goes, or everything that the data model owns goes with it. */
  ghost predicate KeepsCounts(f: Forest, depth: map<Id, nat>, t: set<Id>)
    requires Linked(f, depth) && t <= f.ids
  {
    forall m :: m in f.models ==> Strays(f, depth, t, m) == {} || OwnedBy(f, m) <= t - {m}
  }

  lemma ReleasesWhat(f: Forest, depth: map<Id, nat>, t: set<Id>, m: Id, y: Id)
    requires Linked(f, depth) && t <= f.ids && m in f.models && y in t
    ensures y in Releasing(Homes(f, depth), t, m) <==> y in OwnedBy(f, m) * (t - {m}) || y in Strays(f, depth, t, m)
  {
    hide Linked, Root;
  }

  lemma PartsWithin(f: Forest, depth: map<Id, nat>, t: set<Id>, m: Id)
    requires Linked(f, depth) && t <= f.ids
    ensures OwnedBy(f, m) !! Strays(f, depth, t, m) && Strays(f, depth, t, m) <= t
    ensures Releasing(Homes(f, depth), t, m) <= t
  {
    hide Linked, Root, Homes;
  }

  lemma ReleasedParts(f: Forest, depth: map<Id, nat>, t: set<Id>, m: Id)
    requires Linked(f, depth) && t <= f.ids && m in f.models
    ensures |Releasing(Homes(f, depth), t, m)| == |OwnedBy(f, m) * (t - {m})| + |Strays(f, depth, t, m)|
  {
    hide Linked, Homes, Releasing, OwnedBy, Strays;
    PartsWithin(f, depth, t, m);
    forall y | y in t
      ensures y in Releasing(Homes(f, depth), t, m) <==> y in OwnedBy(f, m) * (t - {m}) || y in Strays(f, depth, t, m) {
      ReleasesWhat(f, depth, t, m, y);
    }
    JoinSize(OwnedBy(f, m) * (t - {m}), Strays(f, depth, t, m), Releasing(Homes(f, depth), t, m), t);
  }

  lemma JoinSize(a: set<Id>, b: set<Id>, c: set<Id>, t: set<Id>)
    requires a !! b && a <= t && b <= t && c <= t && forall y :: y in t ==> (y in c <==> y in a || y in b)
    ensures |c| == |a| + |b|
  {
    assert c == a + b;
  }

  lemma OwnedByPruned(f: Forest, home: map<Id, Option<Id>>, t: set<Id>, m: Id)
    ensures OwnedBy(Prune(f, home, t), m) == OwnedBy(f, m) - (t - {m})
  {
    hide PrunedChildren, PrunedCount;
  }

  lemma CountAfter(f: Forest, depth: map<Id, nat>, t: set<Id>, m: Id)
    requires Linked(f, depth) && t <= f.ids && m in f.models && m in f.count && f.count[m] == 1 + |OwnedBy(f, m)|
    ensures var g := Prune(f, Homes(f, depth), t);
            m in g.count && (g.count[m] == 1 + |OwnedBy(g, m)|
                             <==> Strays(f, depth, t, m) == {} || OwnedBy(f, m) <= t - {m})
    ensures |OwnedBy(Prune(f, Homes(f, depth), t), m)| <= |OwnedBy(f, m)|
  {
    hide Linked, OwnedBy, Strays, Releasing, PrunedChildren, PrunedOwner, Homes;
    ReleasedParts(f, depth, t, m);
    OwnedByPruned(f, Homes(f, depth), t, m);
    var o, gone := OwnedBy(f, m), t - {m};
    SetParts(o, gone);
    if |Strays(f, depth, t, m)| == 0 {
      assert Strays(f, depth, t, m) == {};
    }
  }

  lemma SetParts(a: set<Id>, b: set<Id>)
    ensures |a * b| + |a - b| == |a| && (|a - b| == 0 <==> a <= b)
  {
    assert a == a * b + (a - b);
    if |a - b| == 0 {
      assert a - b == {};
      assert forall y :: y in a ==> y in b || y in a - b;
    }
    if a <= b {
      assert a - b == {};
    }
  }

  /** Destruction keeps exact counts exactly when nothing stray goes, or nothing counted stays. */
  lemma PrunedCounted(limit: nat, f: Forest, depth: map<Id, nat>, t: set<Id>)
    requires Linked(f, depth) && Counted(limit, f) && t <= f.ids
    ensures Counted(limit, Prune(f, Homes(f, depth), t)) <==> KeepsCounts(f, depth, t)
  {
    hide Linked, OwnedBy, Strays, Homes, PrunedChildren, PrunedOwner, PrunedCount;
    var g := Prune(f, Homes(f, depth), t);
    PrunedKeys(f, Homes(f, depth), t);
    forall m | m in f.models
      ensures m in g.count && |OwnedBy(g, m)| <= |OwnedBy(f, m)|
      ensures g.count[m] == 1 + |OwnedBy(g, m)| <==> Strays(f, depth, t, m) == {} || OwnedBy(f, m) <= t - {m}
    {
      CountAfter(f, depth, t, m);
    }
    hide Prune;
  }

  lemma PrunedKeys(f: Forest, home: map<Id, Option<Id>>, t: set<Id>)
    ensures Prune(f, home, t).count.Keys == f.count.Keys && Prune(f, home, t).models == f.models
  {}

  /** Destruction never separates parent and child. */
  lemma PrunedOneOwner(f: Forest, home: map<Id, Option<Id>>, depth: map<Id, nat>, t: set<Id>)
    requires Linked(f, depth) && OneOwner(f, depth) && Linked(Prune(f, home, t), depth)
    requires forall z, c :: z in t && z in f.children && c in f.children[z] ==> c in t
    ensures OneOwner(Prune(f, home, t), depth)
  {
    hide DataModelOf, PrunedChildren, PrunedCount, PrunedOwner, TidyLists, Deepening, DownLinks;
    var g := Prune(f, home, t);
    forall c | c in g.parent ensures c in g.ids && g.parent[c] in g.ids && SameModel(g, depth, c, g.parent[c]) {
      assert SameModel(f, depth, c, f.parent[c]);
      assert c in f.children[f.parent[c]];
      PrunedHome(f, home, depth, t, c);
      PrunedHome(f, home, depth, t, f.parent[c]);
    }
  }

  /** While data models are roots, nothing is stray. */
  lemma TidyNoStrays(f: Forest, depth: map<Id, nat>, t: set<Id>)
    requires Linked(f, depth) && Owners(f) && Shared(f) && TopModels(f) && t <= f.ids
    ensures KeepsCounts(f, depth, t)
  {
    hide Linked, Root;
    forall m | m in f.models ensures Strays(f, depth, t, m) == {} {
      forall y | y in t && y !in f.owner && Root(f, depth, y) == m ensures y == m {
        RootShares(f, depth, y);
      }
    }
  }

  lemma PrunedTidy(limit: nat, f: Forest, depth: map<Id, nat>, t: set<Id>)
    requires Linked(f, depth) && Owners(f) && Tidy(limit, f) && t <= f.ids
    requires forall z, c :: z in t && z in f.children && c in f.children[z] ==> c in t
    ensures Tidy(limit, Prune(f, Homes(f, depth), t))
  {
    TidyNoStrays(f, depth, t);
    PrunedCounted(limit, f, depth, t);
    PrunedShared(f, Homes(f, depth), depth, t);
  }

  lemma PrunedShared(f: Forest, home: map<Id, Option<Id>>, depth: map<Id, nat>, t: set<Id>)
    requires Linked(f, depth) && Shared(f) && TopModels(f)
    requires forall z, c :: z in t && z in f.children && c in f.children[z] ==> c in t
    ensures Shared(Prune(f, home, t)) && TopModels(Prune(f, home, t))
  {
    hide PrunedChildren, PrunedCount, TidyLists, Deepening, DownLinks;
    var g := Prune(f, home, t);
    forall c | c in g.parent ensures OwnerOf(g, c) == OwnerOf(g, g.parent[c]) {
      assert c in f.children[f.parent[c]];
      assert OwnerOf(f, c) == OwnerOf(f, f.parent[c]);
    }
  }

  // What a destruction does, link by link.

  /** Everything in `t` loses its links and owner, except that an instance may own itself; `x` is gone from its parent's
      list, and nothing else differs but counts. */
  ghost predicate DestroyedLinks(f: Forest, x: Id, t: set<Id>, g: Forest) {
    && g.ids == f.ids && g.models == f.models && g.destroyed == f.destroyed + t && g.children.Keys == f.children.Keys
    && (forall y :: y in g.parent <==> y in f.parent && y !in t)
    && (forall y :: y in g.parent && y in f.parent ==> g.parent[y] == f.parent[y])
    && (forall y :: y in g.owner <==> y in f.owner && (y !in t || f.owner[y] == y))
    && (forall y :: y in g.owner && y in f.owner ==> g.owner[y] == f.owner[y])
    && forall q :: q in f.children ==>
         q in g.children && ChildrenLeft(f.children[q], g.children[q], x, q in t, x in f.parent && f.parent[x] == q)
  }

  ghost predicate ChildrenLeft(before: seq<Id>, after: seq<Id>, x: Id, gone: bool, leaves: bool) {
    if gone then after == [] else if leaves then LostOne(before, after, x) else after == before
  }

  /** Outside the subtree only the parent of `x` loses a child, and only `x`. */
  lemma WithoutSubtree(f: Forest, depth: map<Id, nat>, x: Id, t: set<Id>, q: Id)
    requires Linked(f, depth) && IsSubtree(f, x, t) && q in f.children && q !in t
    ensures if x in f.parent && f.parent[x] == q then LostOne(f.children[q], Without(f.children[q], t), x)
            else Without(f.children[q], t) == f.children[q]
  {
    var s := f.children[q];
    forall y | y in s && y in t ensures y == x && x in f.parent && f.parent[x] == q {}
    if x in f.parent && f.parent[x] == q {
      assert x in s && Distinct(s);
      EraseIsWithout(s, x);
      WithoutOnly(s, t, x);
      ErasedAt(s, x);
    } else {
      WithoutSame(s, t);
    }
  }

  lemma {:induction false} WithoutOnly(s: seq<Id>, t: set<Id>, x: Id)
    requires x in t && forall y :: y in s && y in t ==> y == x
    ensures Without(s, t) == Without(s, {x})
  {
    if s != [] {
      assert s[0] in s && forall y :: y in s[1..] ==> y in s;
      WithoutOnly(s[1..], t, x);
    }
  }

  lemma PrunedReads(f: Forest, depth: map<Id, nat>, x: Id, t: set<Id>)
    requires Linked(f, depth) && IsSubtree(f, x, t)
    ensures DestroyedLinks(f, x, t, Prune(f, Homes(f, depth), t))
  {
    forall q | q in f.children
      ensures q in PrunedChildren(f.children, t)
              && ChildrenLeft(f.children[q], PrunedChildren(f.children, t)[q], x, q in t,
                              x in f.parent && f.parent[x] == q) {
      PrunedAt(f, depth, x, t, q);
    }
    hide *;
    PrunedFields(f, Homes(f, depth), x, t);
  }

  lemma PrunedAt(f: Forest, depth: map<Id, nat>, x: Id, t: set<Id>, q: Id)
    requires Linked(f, depth) && IsSubtree(f, x, t) && q in f.children
    ensures q in PrunedChildren(f.children, t)
            && ChildrenLeft(f.children[q], PrunedChildren(f.children, t)[q], x, q in t,
                            x in f.parent && f.parent[x] == q)
  {
    hide Linked, IsSubtree, Without, LostOne;
    if q !in t {
      WithoutSubtree(f, depth, x, t, q);
    }
  }

  lemma PrunedFields(f: Forest, home: map<Id, Option<Id>>, x: Id, t: set<Id>)
    requires forall q :: q in f.children ==>
               q in PrunedChildren(f.children, t)
               && ChildrenLeft(f.children[q], PrunedChildren(f.children, t)[q], x, q in t,
                               x in f.parent && f.parent[x] == q)
    ensures DestroyedLinks(f, x, t, Prune(f, home, t))
  {
    hide Without, LostOne, ChildrenLeft, PrunedCount;
  }
}
