/** Instances as a forest: parent links, child lists, owning data models and their counters. */
module ForestState {
  import opened DependencyGraph
  import opened Options

  type Id = nat

  /** `models` are the DataModel instances; `count` is each one's OwnedInstanceCount. */
  datatype Forest = Forest(
    ids: set<Id>,
    models: set<Id>,
    parent: map<Id, Id>,
    children: map<Id, seq<Id>>,
    owner: map<Id, Id>,
    destroyed: set<Id>,
    count: map<Id, nat>
  )

  // ---- Invariants

  /** Child lists and parent links are mutual inverses without duplicates, and `depth` grows downwards. */
  ghost predicate Linked(f: Forest, depth: map<Id, nat>) {
    && f.children.Keys == f.ids && depth.Keys == f.ids
    && UpLinks(f) && DownLinks(f) && TidyLists(f) && Deepening(f, depth)
  }

  ghost predicate UpLinks(f: Forest) {
    forall c :: c in f.parent ==> c in f.ids && f.parent[c] in f.ids
                                  && f.parent[c] in f.children && c in f.children[f.parent[c]]
  }

  ghost predicate DownLinks(f: Forest) {
    forall x, c :: x in f.children && c in f.children[x] ==> c in f.parent && f.parent[c] == x
  }

  ghost predicate TidyLists(f: Forest) {
    forall x :: x in f.children ==> Distinct(f.children[x])
  }

  ghost predicate Deepening(f: Forest, depth: map<Id, nat>) {
    forall c :: c in f.parent ==> c in depth && f.parent[c] in depth && depth[f.parent[c]] < depth[c]
  }

  /** Owners are data models. */
  ghost predicate Owners(f: Forest) {
    && f.models <= f.ids && f.owner.Keys <= f.ids && f.destroyed <= f.ids
    && (forall x :: x in f.owner ==> f.owner[x] in f.models)
  }

  ghost function OwnedBy(f: Forest, m: Id): set<Id> {
    set x | x in f.owner && f.owner[x] == m
  }

  /** Every count includes the data model itself, respects the object limit, and never overstates what is owned. */
  ghost predicate Bounded(limit: nat, f: Forest) {
    && f.count.Keys == f.models
    && forall m :: m in f.models ==> 1 <= f.count[m] <= limit && f.count[m] <= 1 + |OwnedBy(f, m)|
  }

  /** A destroyed instance outside `dying` has no parent, no children, and no owner but possibly itself. */
  ghost predicate Retired(f: Forest, dying: set<Id>) {
    forall d :: d in f.destroyed && d !in dying ==>
      d !in f.parent && (d in f.owner ==> f.owner[d] == d) && (d in f.children ==> f.children[d] == [])
  }

  /** What holds in every reachable forest. */
  ghost predicate Sound(limit: nat, f: Forest, depth: map<Id, nat>, dying: set<Id>) {
    Linked(f, depth) && Owners(f) && Bounded(limit, f) && Retired(f, dying)
  }

  // ---- What holds as long as no data model is moved below a parent

  /** The data model an instance answers to while no data model has a parent. */
  function OwnerOf(f: Forest, x: Id): Option<Id> {
    if x in f.owner then Some(f.owner[x]) else if x in f.models then Some(x) else None
  }

  /** Data models have no owner, and parent and child have one owner. */
  ghost predicate Shared(f: Forest) {
    && (forall m :: m in f.models ==> m !in f.owner)
    && (forall c :: c in f.parent ==> OwnerOf(f, c) == OwnerOf(f, f.parent[c]))
  }

  ghost predicate TopModels(f: Forest) {
    forall m :: m in f.models ==> m !in f.parent
  }

  /** A data model counts itself and everything it owns, within the object limit. */
  ghost predicate Counted(limit: nat, f: Forest) {
    && f.count.Keys == f.models
    && forall m :: m in f.models ==> f.count[m] == 1 + |OwnedBy(f, m)| <= limit
  }

  ghost predicate Tidy(limit: nat, f: Forest) {
    Shared(f) && TopModels(f) && Counted(limit, f)
  }

  // ---- What the links mean

  ghost predicate Climbs(f: Forest, p: seq<Id>, k: nat)
    requires k + 1 < |p|
  {
    p[k] in f.parent && f.parent[p[k]] == p[k + 1]
  }

  ghost predicate Climb(f: Forest, p: seq<Id>) {
    |p| > 0 && forall k: nat :: k + 1 < |p| ==> Climbs(f, p, k)
  }

  /** Following parents never comes back: the forest has no cycle. */
  lemma {:induction false} NoCycle(f: Forest, depth: map<Id, nat>, p: seq<Id>)
    requires Linked(f, depth) && Climb(f, p) && |p| >= 2
    ensures p[0] in f.ids && p[|p| - 1] in f.ids && depth[p[|p| - 1]] < depth[p[0]] && p[0] != p[|p| - 1]
  {
    assert Climbs(f, p, 0) && Climbs(f, p, |p| - 2);
    if |p| > 2 {
      var q := p[..|p| - 1];
      forall k: nat | k + 1 < |q| ensures Climbs(f, q, k) { assert Climbs(f, p, k); }
      NoCycle(f, depth, q);
    }
  }

  /** `t` is `x` with everything below it. */
  ghost predicate IsSubtree(f: Forest, x: Id, t: set<Id>) {
    && x in t && t <= f.ids && f.children.Keys == f.ids
    && (forall y, c :: y in t && c in f.children[y] ==> c in t)
    && (forall y :: y in t && y != x ==> y in f.parent && f.parent[y] in t)
  }

  lemma {:induction false} SubtreeMember(f: Forest, depth: map<Id, nat>, x: Id, s: set<Id>, t: set<Id>, y: Id)
    requires Linked(f, depth) && IsSubtree(f, x, s) && IsSubtree(f, x, t) && y in s
    ensures y in t
    decreases depth[y]
  {
    if y != x {
      SubtreeMember(f, depth, x, s, t, f.parent[y]);
      assert y in f.children[f.parent[y]];
    }
  }

  lemma SubtreeUnique(f: Forest, depth: map<Id, nat>, x: Id, s: set<Id>, t: set<Id>)
    requires Linked(f, depth) && IsSubtree(f, x, s) && IsSubtree(f, x, t)
    ensures s == t
  {
    forall y | y in s ensures y in t { SubtreeMember(f, depth, x, s, t, y); }
    forall y | y in t ensures y in s { SubtreeMember(f, depth, x, t, s, y); }
  }

  /** `x` is `y` or one of its ancestors. */
  ghost predicate Under(f: Forest, depth: map<Id, nat>, y: Id, x: Id)
    requires Linked(f, depth) && y in f.ids
    decreases depth[y]
  {
    y == x || (y in f.parent && Under(f, depth, f.parent[y], x))
  }

  ghost function Subtree(f: Forest, depth: map<Id, nat>, x: Id): set<Id>
    requires Linked(f, depth)
  {
    set y | y in f.ids && Under(f, depth, y, x)
  }

  lemma SubtreeIs(f: Forest, depth: map<Id, nat>, x: Id)
    requires Linked(f, depth) && x in f.ids
    ensures IsSubtree(f, x, Subtree(f, depth, x))
  {
    var t := Subtree(f, depth, x);
    forall y, c | y in t && c in f.children[y] ensures c in t {
      assert c in f.parent && f.parent[c] == y;
    }
  }

  // ---- Sequences without some elements

  function Without(s: seq<Id>, gone: set<Id>): (r: seq<Id>)
    ensures forall y :: y in r <==> y in s && y !in gone
  {
    if s == [] then [] else if s[0] in gone then Without(s[1..], gone) else [s[0]] + Without(s[1..], gone)
  }

  lemma {:induction false} WithoutDistinct(s: seq<Id>, gone: set<Id>)
    requires Distinct(s)
    ensures Distinct(Without(s, gone))
  {
    if s != [] {
      WithoutDistinct(s[1..], gone);
    }
  }

  lemma {:induction false} WithoutSame(s: seq<Id>, gone: set<Id>)
    requires forall y :: y in gone ==> y !in s
    ensures Without(s, gone) == s
  {
    if s != [] {
      assert s[0] in s;
      WithoutSame(s[1..], gone);
    }
  }

  lemma {:induction false} WithoutTwice(s: seq<Id>, a: set<Id>, b: set<Id>)
    ensures Without(Without(s, a), b) == Without(s, a + b)
  {
    if s != [] {
      WithoutTwice(s[1..], a, b);
      if s[0] !in a {
        var r := Without(s, a);
        assert r[0] == s[0] && r[1..] == Without(s[1..], a);
      }
    }
  }

  /** Erasing the first occurrence, as std::find and erase do. */
  function Erase(s: seq<Id>, x: Id): seq<Id> {
    if s == [] then [] else if s[0] == x then s[1..] else [s[0]] + Erase(s[1..], x)
  }

  lemma {:induction false} EraseIsWithout(s: seq<Id>, x: Id)
    requires Distinct(s)
    ensures Erase(s, x) == Without(s, {x})
  {
    if s != [] {
      if s[0] == x {
        WithoutSame(s[1..], {x});
      } else {
        EraseIsWithout(s[1..], x);
      }
    }
  }

  // ---- Reparenting

  /** `x` leaves its parent's child list and loses its parent link. */
  function Cut(f: Forest, x: Id): Forest
    requires x in f.parent ==> f.parent[x] in f.children
  {
    if x !in f.parent then f
    else f.(parent := f.parent - {x}, children := f.children[f.parent[x] := Erase(f.children[f.parent[x]], x)])
  }

  /** `x`, which has no parent, becomes the last child of `p`. */
  function Attach(f: Forest, x: Id, p: Id): Forest
    requires p in f.children
  {
    f.(parent := f.parent[x := p], children := f.children[p := f.children[p] + [x]])
  }

  lemma CutLinked(f: Forest, depth: map<Id, nat>, x: Id)
    requires Linked(f, depth) && x in f.ids
    ensures Linked(Cut(f, x), depth) && x !in Cut(f, x).parent
  {
    hide UpLinks, DownLinks, TidyLists, Deepening;
    if x in f.parent {
      ParentAt(f, x);
      CutTidy(f, x);
      EraseTidy(f, x);
      CutLinks(f, depth, x);
    }
  }

  lemma ParentAt(f: Forest, x: Id)
    requires UpLinks(f) && x in f.parent
    ensures f.parent[x] in f.children && f.parent[x] in f.ids && x in f.ids
  {}

  lemma CutLinks(f: Forest, depth: map<Id, nat>, x: Id)
    requires UpLinks(f) && DownLinks(f) && Deepening(f, depth) && x in f.parent && f.parent[x] in f.children
    requires Erase(f.children[f.parent[x]], x) == Without(f.children[f.parent[x]], {x})
    ensures UpLinks(Cut(f, x)) && DownLinks(Cut(f, x)) && Deepening(Cut(f, x), depth)
  {
    hide Erase, Without;
    CutUp(f, x);
    CutDown(f, x);
    hide UpLinks, DownLinks;
  }

  lemma CutUp(f: Forest, x: Id)
    requires UpLinks(f) && x in f.parent && f.parent[x] in f.children
    requires Erase(f.children[f.parent[x]], x) == Without(f.children[f.parent[x]], {x})
    ensures UpLinks(Cut(f, x))
  {
    hide Erase, Without;
  }

  lemma CutDown(f: Forest, x: Id)
    requires DownLinks(f) && x in f.parent && f.parent[x] in f.children
    requires Erase(f.children[f.parent[x]], x) == Without(f.children[f.parent[x]], {x})
    ensures DownLinks(Cut(f, x))
  {
    hide Erase, Without;
  }

  lemma EraseTidy(f: Forest, x: Id)
    requires TidyLists(f) && x in f.parent && f.parent[x] in f.children
    ensures Erase(f.children[f.parent[x]], x) == Without(f.children[f.parent[x]], {x})
  {
    EraseIsWithout(f.children[f.parent[x]], x);
  }

  lemma CutTidy(f: Forest, x: Id)
    requires TidyLists(f) && x in f.parent && f.parent[x] in f.children
    ensures TidyLists(Cut(f, x))
  {
    EraseTidy(f, x);
    WithoutDistinct(f.children[f.parent[x]], {x});
  }

  lemma CutSubtree(f: Forest, depth: map<Id, nat>, x: Id, t: set<Id>)
    requires Linked(f, depth) && IsSubtree(f, x, t)
    ensures IsSubtree(Cut(f, x), x, t)
  {
    if x in f.parent {
      EraseIsWithout(f.children[f.parent[x]], x);
    }
  }

  /** New depths after hanging the subtree `t` below `p`. */
  ghost function Sunk(depth: map<Id, nat>, t: set<Id>, p: Id): map<Id, nat>
    requires p in depth
  {
    map y | y in depth :: if y in t then depth[y] + depth[p] + 1 else depth[y]
  }

  lemma AttachLinked(f: Forest, depth: map<Id, nat>, x: Id, p: Id, t: set<Id>)
    requires Linked(f, depth) && x !in f.parent && IsSubtree(f, x, t) && p in f.ids && p !in t
    ensures Linked(Attach(f, x, p), Sunk(depth, t, p))
  {
    hide UpLinks, DownLinks, TidyLists, Deepening, IsSubtree;
    assert x in f.ids by { SubtreeRoot(f, x, t); }
    AttachUp(f, x, p);
    AttachDown(f, x, p);
    AttachTidy(f, x, p);
    AttachDeepens(f, depth, x, p, t);
    assert Sunk(depth, t, p).Keys == f.ids;
  }

  lemma SubtreeRoot(f: Forest, x: Id, t: set<Id>)
    requires IsSubtree(f, x, t)
    ensures x in f.ids && x in t
  {}

  lemma AttachUp(f: Forest, x: Id, p: Id)
    requires UpLinks(f) && f.children.Keys == f.ids && x in f.ids && x !in f.parent && p in f.ids
    ensures UpLinks(Attach(f, x, p))
  {}

  lemma AttachDown(f: Forest, x: Id, p: Id)
    requires DownLinks(f) && x !in f.parent && p in f.children
    ensures DownLinks(Attach(f, x, p))
  {}

  lemma AttachTidy(f: Forest, x: Id, p: Id)
    requires TidyLists(f) && DownLinks(f) && x !in f.parent && p in f.children
    ensures TidyLists(Attach(f, x, p))
  {
    assert x !in f.children[p];
  }

  lemma AttachDeepens(f: Forest, depth: map<Id, nat>, x: Id, p: Id, t: set<Id>)
    requires Linked(f, depth) && x !in f.parent && IsSubtree(f, x, t) && p in f.ids && p !in t
    ensures Deepening(Attach(f, x, p), Sunk(depth, t, p))
  {
    hide TidyLists;
    var g, d := Attach(f, x, p), Sunk(depth, t, p);
    forall c | c in g.parent ensures c in d && g.parent[c] in d && d[g.parent[c]] < d[c] {
      if c != x {
        assert c in f.children[f.parent[c]];
      }
    }
  }

  /** Everything in `t` comes to be owned by `m`. */
  function Adopt(f: Forest, t: set<Id>, m: Id): Forest
    requires m in f.count
  {
    f.(owner := f.owner + AllTo(t, m), count := f.count[m := f.count[m] + |t|])
  }

  function AllTo(t: set<Id>, m: Id): map<Id, Id> {
    map y | y in t :: m
  }

  lemma AdoptOwned(f: Forest, t: set<Id>, m: Id, k: Id)
    requires m in f.count && t !! f.owner.Keys
    ensures OwnedBy(Adopt(f, t, m), k) == OwnedBy(f, k) + if k == m then t else {}
  {}

  lemma AdoptBounded(limit: nat, f: Forest, t: set<Id>, m: Id)
    requires Bounded(limit, f) && m in f.models && t !! f.owner.Keys && f.count[m] + |t| <= limit
    ensures Bounded(limit, Adopt(f, t, m))
  {
    hide OwnedBy;
    var g := Adopt(f, t, m);
    forall k | k in f.models ensures 1 <= g.count[k] <= limit && g.count[k] <= 1 + |OwnedBy(g, k)| {
      AdoptOwned(f, t, m, k);
      OwnedApart(f, t, k);
    }
  }

  lemma OwnedApart(f: Forest, t: set<Id>, k: Id)
    requires t !! f.owner.Keys
    ensures OwnedBy(f, k) !! t && |OwnedBy(f, k) + t| == |OwnedBy(f, k)| + |t|
  {}

  /** Adoption counts exactly what it owns, whatever the count was before. */
  lemma AdoptCounted(limit: nat, f: Forest, t: set<Id>, m: Id)
    requires Bounded(limit, f) && m in f.models && t !! f.owner.Keys && f.count[m] + |t| <= limit
    ensures Counted(limit, Adopt(f, t, m)) <==> Counted(limit, f)
  {
    hide OwnedBy;
    AdoptBounded(limit, f, t, m);
    forall k | k in f.models
      ensures Adopt(f, t, m).count[k] == 1 + |OwnedBy(Adopt(f, t, m), k)| <==> f.count[k] == 1 + |OwnedBy(f, k)| {
      AdoptOwned(f, t, m, k);
      OwnedApart(f, t, k);
    }
  }

  /** Ownership after a move: `f` already carries the final owners, `x` hangs below `p`. */
  lemma AttachShared(f: Forest, g: Forest, depth: map<Id, nat>, x: Id, p: Id, t: set<Id>)
    requires Linked(f, depth) && x !in f.parent && IsSubtree(f, x, t) && p in f.ids && p !in t
    requires Shared(f) && g.parent == f.parent && g.models == f.models && p in g.children
    requires forall y :: y in g.owner ==> y !in g.models
    requires forall y :: y in f.ids && y !in t ==> OwnerOf(g, y) == OwnerOf(f, y)
    requires forall y :: y in t ==> OwnerOf(g, y) == OwnerOf(f, p)
    ensures Shared(Attach(g, x, p))
  {
    var h := Attach(g, x, p);
    forall c | c in h.parent ensures OwnerOf(h, c) == OwnerOf(h, h.parent[c]) {
      assert OwnerOf(h, c) == OwnerOf(g, c) && OwnerOf(h, h.parent[c]) == OwnerOf(g, h.parent[c]);
      if c != x {
        assert c in f.children[f.parent[c]];
        assert OwnerOf(f, c) == OwnerOf(f, f.parent[c]);
      }
    }
  }

  lemma CutShared(f: Forest, depth: map<Id, nat>, x: Id)
    requires Linked(f, depth) && Shared(f) && x in f.ids
    ensures Shared(Cut(f, x))
  {
    var g := Cut(f, x);
    forall c | c in g.parent ensures OwnerOf(g, c) == OwnerOf(g, g.parent[c]) {
      assert OwnerOf(f, c) == OwnerOf(f, f.parent[c]);
    }
  }

  lemma {:induction false} SubtreeShares(f: Forest, depth: map<Id, nat>, x: Id, t: set<Id>, y: Id)
    requires Linked(f, depth) && Shared(f) && IsSubtree(f, x, t) && y in t
    ensures OwnerOf(f, y) == OwnerOf(f, x)
    decreases depth[y]
  {
    if y != x {
      SubtreeShares(f, depth, x, t, f.parent[y]);
    }
  }

  lemma {:induction false} SubtreeDeeper(f: Forest, depth: map<Id, nat>, x: Id, t: set<Id>, y: Id)
    requires Linked(f, depth) && IsSubtree(f, x, t) && y in t
    ensures depth[x] <= depth[y]
    decreases depth[y]
  {
    if y != x {
      SubtreeDeeper(f, depth, x, t, f.parent[y]);
    }
  }

  // ---- Roots and the data model an instance answers to

  ghost function Root(f: Forest, depth: map<Id, nat>, x: Id): (r: Id)
    requires Linked(f, depth) && x in f.ids
    ensures r in f.ids && r !in f.parent
    decreases depth[x]
  {
    if x in f.parent then Root(f, depth, f.parent[x]) else x
  }

  /** What `x` answers to in a tree whose root is `root`: its recorded owner, else the root if that is a data model. */
  ghost function AnswerUnder(f: Forest, x: Id, root: Id): Option<Id> {
    if x in f.owner then Some(f.owner[x]) else if root in f.models then Some(root) else None
  }

  /** What GetDataModel answers. */
  ghost function DataModelOf(f: Forest, depth: map<Id, nat>, x: Id): Option<Id>
    requires Linked(f, depth) && x in f.ids
  {
    AnswerUnder(f, x, Root(f, depth, x))
  }

  /** Parent and child answer to the same data model. */
  ghost predicate OneOwner(f: Forest, depth: map<Id, nat>)
    requires Linked(f, depth)
  {
    forall c :: c in f.parent ==> c in f.ids && f.parent[c] in f.ids && SameModel(f, depth, c, f.parent[c])
  }

  ghost predicate SameModel(f: Forest, depth: map<Id, nat>, x: Id, y: Id)
    requires Linked(f, depth) && x in f.ids && y in f.ids
  {
    DataModelOf(f, depth, x) == DataModelOf(f, depth, y)
  }

  lemma {:induction false} RootShares(f: Forest, depth: map<Id, nat>, x: Id)
    requires Linked(f, depth) && Shared(f) && x in f.ids
    ensures OwnerOf(f, Root(f, depth, x)) == OwnerOf(f, x)
    decreases depth[x]
  {
    if x in f.parent {
      RootShares(f, depth, f.parent[x]);
    }
  }

  /** While data models are roots, the walk and the recorded owner agree. */
  lemma TopModelsAgree(f: Forest, depth: map<Id, nat>, x: Id)
    requires Linked(f, depth) && Shared(f) && TopModels(f) && x in f.ids
    ensures DataModelOf(f, depth, x) == OwnerOf(f, x)
  {
    RootShares(f, depth, x);
  }

  /** A data model below a parent that it owns answers to no data model, unlike that parent. */
  lemma NestedModelIsLost(f: Forest, depth: map<Id, nat>, m: Id)
    requires Linked(f, depth) && Shared(f) && m in f.models && m in f.parent
    ensures DataModelOf(f, depth, m) == None && DataModelOf(f, depth, f.parent[m]) == Some(m)
  {
    RootShares(f, depth, f.parent[m]);
  }

  /** With one owner throughout, a whole tree answers to one data model. */
  lemma {:induction false} TreeIsUniform(f: Forest, depth: map<Id, nat>, x: Id)
    requires Linked(f, depth) && OneOwner(f, depth) && x in f.ids
    ensures DataModelOf(f, depth, x) == DataModelOf(f, depth, Root(f, depth, x))
    decreases depth[x]
  {
    if x in f.parent {
      assert SameModel(f, depth, x, f.parent[x]);
      TreeIsUniform(f, depth, f.parent[x]);
    }
  }

  lemma {:induction false} SubtreeRootSame(f: Forest, depth: map<Id, nat>, x: Id, t: set<Id>, y: Id)
    requires Linked(f, depth) && IsSubtree(f, x, t) && y in t
    ensures y in f.ids && Root(f, depth, y) == Root(f, depth, x)
    decreases depth[y]
  {
    if y != x {
      SubtreeRootSame(f, depth, x, t, f.parent[y]);
    }
  }

  /** Roots after `x` is cut off: its subtree has root `x`, everything else keeps its root. */
  lemma {:induction false} CutRoots(f: Forest, g: Forest, depth: map<Id, nat>, x: Id, t: set<Id>, y: Id)
    requires Linked(f, depth) && Linked(g, depth) && IsSubtree(f, x, t) && g.ids == f.ids
             && g.parent == f.parent - {x} && y in f.ids
    ensures Root(g, depth, y) == if y in t then x else Root(f, depth, y)
    decreases depth[y]
  {
    if y in f.parent && y != x {
      assert y in f.children[f.parent[y]];
      CutRoots(f, g, depth, x, t, f.parent[y]);
    }
  }

  /** Roots after `x` is moved below `p`: its subtree takes over `p`'s root. */
  lemma {:induction false} MoveRoots(f: Forest, g: Forest, depth: map<Id, nat>, sunk: map<Id, nat>, x: Id, p: Id,
                                     t: set<Id>, y: Id)
    requires Linked(f, depth) && Linked(g, sunk) && IsSubtree(f, x, t) && p in f.ids && p !in t
    requires g.ids == f.ids && g.parent == f.parent[x := p] && y in f.ids
    ensures Root(g, sunk, y) == if y in t then Root(f, depth, p) else Root(f, depth, y)
    decreases sunk[y]
  {
    hide TidyLists;
    assert y in g.parent ==> sunk[g.parent[y]] < sunk[y];
    if y == x {
      assert g.parent[x] == p;
      MoveRoots(f, g, depth, sunk, x, p, t, p);
    } else if y in f.parent {
      assert y in f.children[f.parent[y]] && g.parent[y] == f.parent[y];
      MoveRoots(f, g, depth, sunk, x, p, t, f.parent[y]);
    }
  }

  // ---- Destruction

  /** What every instance answers to. */
  ghost function Homes(f: Forest, depth: map<Id, nat>): map<Id, Option<Id>>
    requires Linked(f, depth)
  {
    map y | y in f.ids :: DataModelOf(f, depth, y)
  }

  ghost function PrunedChildren(children: map<Id, seq<Id>>, gone: set<Id>): map<Id, seq<Id>> {
    map y | y in children :: if y in gone then [] else Without(children[y], gone)
  }

  /** Everything in `gone` that gives a place back to `m`. */
  ghost function Releasing(home: map<Id, Option<Id>>, gone: set<Id>, m: Id): set<Id> {
    set y | y in gone && y in home && home[y] == Some(m) && y != m
  }

  /** `n` places given back; a data model always keeps the one for itself. */
  function Drop(c: nat, n: nat): nat {
    if c > n + 1 then c - n else 1
  }

  ghost function PrunedCount(count: map<Id, nat>, home: map<Id, Option<Id>>, gone: set<Id>): map<Id, nat> {
    map m | m in count :: Drop(count[m], |Releasing(home, gone, m)|)
  }

  ghost function PrunedOwner(owner: map<Id, Id>, gone: set<Id>): map<Id, Id> {
    map y | y in owner && (y !in gone || owner[y] == y) :: owner[y]
  }

  /** The forest once everything in `gone`, which answered as `home` says, has been destroyed. */
  ghost function Prune(f: Forest, home: map<Id, Option<Id>>, gone: set<Id>): Forest {
    f.(parent := f.parent - gone, children := PrunedChildren(f.children, gone), owner := PrunedOwner(f.owner, gone),
       destroyed := f.destroyed + gone, count := PrunedCount(f.count, home, gone))
  }

  lemma PrunedChildrenTwice(children: map<Id, seq<Id>>, a: set<Id>, b: set<Id>)
    ensures PrunedChildren(PrunedChildren(children, a), b) == PrunedChildren(children, a + b)
  {
    forall y | y in children
      ensures PrunedChildren(PrunedChildren(children, a), b)[y] == PrunedChildren(children, a + b)[y]
    {
      WithoutTwice(children[y], a, b);
    }
  }

  lemma ReleasingJoin(home: map<Id, Option<Id>>, a: set<Id>, b: set<Id>, m: Id)
    requires a !! b
    ensures |Releasing(home, a + b, m)| == |Releasing(home, a, m)| + |Releasing(home, b, m)|
  {
    assert Releasing(home, a + b, m) == Releasing(home, a, m) + Releasing(home, b, m);
  }

  lemma PrunedCountTwice(count: map<Id, nat>, home: map<Id, Option<Id>>, a: set<Id>, b: set<Id>)
    requires a !! b
    ensures PrunedCount(PrunedCount(count, home, a), home, b) == PrunedCount(count, home, a + b)
  {
    hide Releasing;
    forall m | m in count ensures PrunedCount(PrunedCount(count, home, a), home, b)[m]
      == PrunedCount(count, home, a + b)[m] {
      ReleasingJoin(home, a, b, m);
    }
  }

  lemma PruneTwice(f: Forest, home: map<Id, Option<Id>>, a: set<Id>, b: set<Id>)
    requires a !! b
    ensures Prune(Prune(f, home, a), home, b) == Prune(f, home, a + b)
  {
    hide PrunedChildren, PrunedCount;
    PrunedChildrenTwice(f.children, a, b);
    PrunedCountTwice(f.count, home, a, b);
    assert f.parent - a - b == f.parent - (a + b);
    assert PrunedOwner(PrunedOwner(f.owner, a), b) == PrunedOwner(f.owner, a + b);
    assert f.destroyed + a + b == f.destroyed + (a + b);
  }

  /** Only the answers of what goes matter. */
  lemma PruneSameHomes(f: Forest, home: map<Id, Option<Id>>, other: map<Id, Option<Id>>, gone: set<Id>)
    requires forall y :: y in gone ==> y in home && y in other && home[y] == other[y]
    ensures Prune(f, home, gone) == Prune(f, other, gone)
  {
    hide PrunedChildren, PrunedOwner;
    forall m | m in f.count ensures Releasing(home, gone, m) == Releasing(other, gone, m) {}
  }

  lemma PrunedNoChildren(children: map<Id, seq<Id>>)
    ensures PrunedChildren(children, {}) == children
  {
    forall y | y in children ensures PrunedChildren(children, {})[y] == children[y] {
      WithoutSame(children[y], {});
    }
  }

  lemma PruneNothing(limit: nat, f: Forest, home: map<Id, Option<Id>>)
    requires Bounded(limit, f)
    ensures Prune(f, home, {}) == f
  {
    hide PrunedChildren, OwnedBy;
    PrunedNoChildren(f.children);
    forall m | m in f.count ensures PrunedCount(f.count, home, {})[m] == f.count[m] {
      assert Releasing(home, {}, m) == {};
    }
    assert f.parent - {} == f.parent && PrunedOwner(f.owner, {}) == f.owner && f.destroyed + {} == f.destroyed;
  }

  /** Whatever stays keeps its root when all below what goes goes too. */
  lemma {:induction false} PrunedRoots(f: Forest, g: Forest, depth: map<Id, nat>, gone: set<Id>, y: Id)
    requires Linked(f, depth) && Linked(g, depth) && g.ids == f.ids && g.parent == f.parent - gone && y in f.ids
             && y !in gone
    requires forall z, c :: z in gone && z in f.children && c in f.children[z] ==> c in gone
    ensures Root(g, depth, y) == Root(f, depth, y)
    decreases depth[y]
  {
    if y in f.parent {
      assert y in f.children[f.parent[y]];
      PrunedRoots(f, g, depth, gone, f.parent[y]);
    }
  }

  lemma PrunedHome(f: Forest, home: map<Id, Option<Id>>, depth: map<Id, nat>, gone: set<Id>, y: Id)
    requires Linked(f, depth) && Linked(Prune(f, home, gone), depth) && y in f.ids && y !in gone
    requires forall z, c :: z in gone && z in f.children && c in f.children[z] ==> c in gone
    ensures DataModelOf(Prune(f, home, gone), depth, y) == DataModelOf(f, depth, y)
  {
    hide Linked, PrunedChildren, PrunedCount;
    PrunedRoots(f, Prune(f, home, gone), depth, gone, y);
  }
}
