/** The canonical order of a skin's joints: depth first, siblings ascending, every parent before its children. */
module SkinOrder {
  import opened DependencyGraph
  import opened Sorting
  import opened NodeForest

  const MAX_BONES: nat := 256

  /** The joints contain the parent of each of their members. */
  ghost predicate Closed(table: seq<int>, js: set<nat>) {
    forall j :: j in js ==> j < |table| && (table[j] >= 0 ==> table[j] in js)
  }

  /** The joints below `n` whose parent is `parent`, ascending; -1 stands for no parent. */
  function Kids(table: seq<int>, js: set<nat>, parent: int, n: nat): seq<nat>
    requires n <= |table|
  {
    if n == 0 then [] else
    Kids(table, js, parent, n - 1) + (if n - 1 in js && table[n - 1] == parent then [n - 1] else [])
  }

  lemma {:induction false} KidsRise(table: seq<int>, js: set<nat>, parent: int, n: nat)
    requires n <= |table|
    ensures Rising(Kids(table, js, parent, n))
    ensures forall i: nat :: i in Kids(table, js, parent, n) <==> i < n && i in js && table[i] == parent
  {
    if n > 0 {
      KidsRise(table, js, parent, n - 1);
      var before := Kids(table, js, parent, n - 1);
      assert forall k: nat :: k < |before| ==> before[k] in before;
    }
  }

  function KidsOf(table: seq<int>, js: set<nat>, parent: int): seq<nat> {
    Kids(table, js, parent, |table|)
  }

  lemma KidsOfRise(table: seq<int>, js: set<nat>, parent: int)
    ensures Rising(KidsOf(table, js, parent)) && forall c :: c in KidsOf(table, js, parent) ==> c in js
  {
    KidsRise(table, js, parent, |table|);
  }

  /** The ancestor of `x` at depth `k`. */
  ghost function Ancestor(table: seq<int>, depth: seq<nat>, x: nat, k: nat): (a: nat)
    requires Depths(table, depth) && x < |table| && k <= depth[x]
    ensures a < |table| && depth[a] == k
    decreases depth[x]
  {
    if depth[x] == k then x else Ancestor(table, depth, table[x], k)
  }

  lemma {:induction false} AncestorStep(table: seq<int>, depth: seq<nat>, x: nat, k: nat)
    requires Depths(table, depth) && x < |table| && k < depth[x]
    ensures table[Ancestor(table, depth, x, k + 1)] == Ancestor(table, depth, x, k)
    decreases depth[x]
  {
    if k + 1 < depth[x] {
      AncestorStep(table, depth, table[x], k);
    }
  }

  lemma {:induction false} AncestorIsJoint(table: seq<int>, depth: seq<nat>, js: set<nat>, x: nat, k: nat)
    requires Depths(table, depth) && Closed(table, js) && x in js && k <= depth[x]
    ensures Ancestor(table, depth, x, k) in js
    decreases depth[x]
  {
    if depth[x] != k {
      AncestorIsJoint(table, depth, js, table[x], k);
    }
  }

  ghost predicate Under(table: seq<int>, depth: seq<nat>, x: nat, node: nat)
    requires Depths(table, depth) && node < |table|
  {
    x < |table| && depth[node] <= depth[x] && Ancestor(table, depth, x, depth[node]) == node
  }

  ghost predicate UnderSome(table: seq<int>, depth: seq<nat>, x: nat, list: seq<nat>)
    requires Depths(table, depth) && InTable(table, list)
  {
    exists c :: c in list && Under(table, depth, x, c)
  }

  ghost predicate InTable(table: seq<int>, list: seq<nat>) {
    forall c :: c in list ==> c < |table|
  }

  lemma KidsInTable(table: seq<int>, js: set<nat>, parent: int)
    ensures InTable(table, KidsOf(table, js, parent))
  {
    KidsRise(table, js, parent, |table|);
  }

  lemma UnderParent(table: seq<int>, depth: seq<nat>, x: nat, c: nat)
    requires Depths(table, depth) && c < |table| && table[c] >= 0 && Under(table, depth, x, c)
    ensures Under(table, depth, x, table[c])
  {
    AncestorStep(table, depth, x, depth[table[c]]);
  }

  lemma UnderChild(table: seq<int>, depth: seq<nat>, js: set<nat>, node: nat, x: nat) returns (c: nat)
    requires Depths(table, depth) && Closed(table, js) && node < |table| && x in js
    requires Under(table, depth, x, node) && x != node
    ensures c in js && c < |table| && table[c] == node && Under(table, depth, x, c)
  {
    assert depth[x] > depth[node];
    c := Ancestor(table, depth, x, depth[node] + 1);
    AncestorStep(table, depth, x, depth[node]);
    AncestorIsJoint(table, depth, js, x, depth[node] + 1);
  }

  lemma UnderItself(table: seq<int>, depth: seq<nat>, x: nat)
    requires Depths(table, depth) && x < |table|
    ensures Under(table, depth, x, x)
  {}

  /** A subtree is its root and the subtrees of its children. */
  lemma UnderKids(table: seq<int>, depth: seq<nat>, js: set<nat>, node: nat, x: nat)
    requires Depths(table, depth) && Closed(table, js) && node < |table| && x in js
    ensures InTable(table, KidsOf(table, js, node))
    ensures Under(table, depth, x, node) <==> x == node || UnderSome(table, depth, x, KidsOf(table, js, node))
  {
    KidsInTable(table, js, node);
    KidsRise(table, js, node, |table|);
    hide Kids, Rising, Under, Depths, Closed;
    if Under(table, depth, x, node) && x != node {
      var c := UnderChild(table, depth, js, node, x);
      assert c in KidsOf(table, js, node);
    }
    if c :| c in KidsOf(table, js, node) && Under(table, depth, x, c) {
      UnderParent(table, depth, x, c);
    }
    if x == node {
      UnderItself(table, depth, x);
    }
  }

  /** Every joint lies below a root among the joints. */
  lemma UnderRoots(table: seq<int>, depth: seq<nat>, js: set<nat>, x: nat)
    requires Depths(table, depth) && Closed(table, js) && x in js
    ensures InTable(table, KidsOf(table, js, -1)) && UnderSome(table, depth, x, KidsOf(table, js, -1))
  {
    KidsInTable(table, js, -1);
    KidsRise(table, js, -1, |table|);
    hide Kids, Rising;
    var r := Ancestor(table, depth, x, 0);
    AncestorIsJoint(table, depth, js, x, 0);
    assert table[r] == -1;
    assert r in KidsOf(table, js, -1) && Under(table, depth, x, r);
  }

  ghost predicate Level(table: seq<int>, depth: seq<nat>, list: seq<nat>, level: nat) {
    |depth| == |table| && forall c :: c in list ==> c < |table| && depth[c] == level
  }

  ghost predicate Shallow(depth: seq<nat>, top: nat) {
    forall i: nat :: i < |depth| ==> depth[i] < top
  }

  lemma KidsLevel(table: seq<int>, depth: seq<nat>, js: set<nat>, node: nat)
    requires Depths(table, depth) && node < |table|
    ensures Level(table, depth, KidsOf(table, js, node), depth[node] + 1)
  {
    KidsRise(table, js, node, |table|);
  }

  lemma RootsLevel(table: seq<int>, depth: seq<nat>, js: set<nat>)
    requires Depths(table, depth)
    ensures Level(table, depth, KidsOf(table, js, -1), 0)
  {
    KidsRise(table, js, -1, |table|);
  }

  lemma LevelRest(table: seq<int>, depth: seq<nat>, list: seq<nat>, level: nat)
    requires Level(table, depth, list, level) && list != [] && |depth| == |table|
    ensures Level(table, depth, list[1..], level) && list[0] in list && list[0] < |table| && depth[list[0]] == level
    ensures InTable(table, list) && InTable(table, [list[0]]) && InTable(table, list[1..])
  {
    assert list[0] in list;
    assert forall c :: c in list[1..] ==> c in list;
  }

  /** A joint followed by the subtrees of its children. */
  ghost function Block(table: seq<int>, depth: seq<nat>, js: set<nat>, node: nat, top: nat): seq<nat>
    requires Depths(table, depth) && node < |table| && Shallow(depth, top)
    decreases top - depth[node], 0, 0
  {
    KidsLevel(table, depth, js, node);
    [node] + Blocks(table, depth, js, KidsOf(table, js, node), depth[node] + 1, top)
  }

  ghost function Blocks(table: seq<int>, depth: seq<nat>, js: set<nat>, list: seq<nat>, level: nat, top: nat): seq<nat>
    requires Depths(table, depth) && Level(table, depth, list, level) && level <= top && Shallow(depth, top)
    decreases top - level, 1, |list|
  {
    if list == [] then [] else
    LevelRest(table, depth, list, level);
    Block(table, depth, js, list[0], top) + Blocks(table, depth, js, list[1..], level, top)
  }

  /** The canonical order: a function of the joints as a set, whatever order the skin lists them in. */
  ghost function Order(table: seq<int>, depth: seq<nat>, js: set<nat>, top: nat): seq<nat>
    requires Depths(table, depth) && Shallow(depth, top)
  {
    RootsLevel(table, depth, js);
    Blocks(table, depth, js, KidsOf(table, js, -1), 0, top)
  }

  ghost predicate Earlier(s: seq<nat>, j: nat, v: int) {
    exists i: nat :: i < j && i < |s| && s[i] == v
  }

  /** Everything in `s` is one of `starts` or comes after its parent. */
  ghost predicate Led(table: seq<int>, s: seq<nat>, starts: seq<nat>) {
    forall j: nat :: j < |s| ==> s[j] in starts || (s[j] < |table| && Earlier(s, j, table[s[j]]))
  }

  lemma LedJoin(table: seq<int>, a: seq<nat>, b: seq<nat>, as': seq<nat>, bs: seq<nat>, starts: seq<nat>)
    requires Led(table, a, as') && Led(table, b, bs)
    requires forall x :: x in as' || x in bs ==> x in starts
    ensures Led(table, a + b, starts)
  {
    var s := a + b;
    forall j: nat | j < |s| ensures s[j] in starts || (s[j] < |table| && Earlier(s, j, table[s[j]])) {
      if j < |a| {
        if a[j] !in as' {
          var i: nat :| i < j && i < |a| && a[i] == table[a[j]];
          assert s[i] == table[s[j]];
        }
      } else if b[j - |a|] !in bs {
        var i: nat :| i < j - |a| && i < |b| && b[i] == table[b[j - |a|]];
        assert s[|a| + i] == table[s[j]];
      }
    }
  }

  /** Putting the common parent in front leads the whole. */
  lemma LedByParent(table: seq<int>, node: nat, b: seq<nat>, kids: seq<nat>)
    requires Led(table, b, kids) && forall c :: c in kids ==> c < |table| && table[c] == node
    ensures Led(table, [node] + b, [node])
  {
    var s := [node] + b;
    forall j: nat | 0 < j < |s| ensures s[j] < |table| && Earlier(s, j, table[s[j]]) {
      if b[j - 1] in kids {
        assert s[0] == table[s[j]];
      } else {
        var i: nat :| i < j - 1 && i < |b| && b[i] == table[b[j - 1]];
        assert s[i + 1] == table[s[j]];
      }
    }
  }

  lemma DistinctJoin(a: seq<nat>, b: seq<nat>)
    requires Distinct(a) && Distinct(b) && forall x :: x in a ==> x !in b
    ensures Distinct(a + b)
  {
    var s := a + b;
    forall i, j | 0 <= i < j < |s| ensures s[i] != s[j] {
      if i < |a| <= j {
        assert a[i] in a && b[j - |a|] in b;
      }
    }
  }

  /** `b` lists exactly the joints below `starts`, once each, every other one after its parent. */
  ghost predicate Covers(table: seq<int>, depth: seq<nat>, js: set<nat>, b: seq<nat>, starts: seq<nat>)
    requires Depths(table, depth) && InTable(table, starts)
  {
    Distinct(b) && Led(table, b, starts) && forall x :: x in b <==> x in js && UnderSome(table, depth, x, starts)
  }

  lemma ParentCovers(table: seq<int>, depth: seq<nat>, js: set<nat>, node: nat, rest: seq<nat>)
    requires Depths(table, depth) && Closed(table, js) && node in js && InTable(table, KidsOf(table, js, node))
    requires Covers(table, depth, js, rest, KidsOf(table, js, node))
    ensures Covers(table, depth, js, [node] + rest, [node])
  {
    var kids := KidsOf(table, js, node);
    KidsLevel(table, depth, js, node);
    KidsRise(table, js, node, |table|);
    NotUnderKids(table, depth, js, node);
    LedByParent(table, node, rest, kids);
    hide Kids, KidsOf, Led, Rising, Depths, Level, Closed;
    DistinctJoin([node], rest);
    forall x | x in js ensures UnderSome(table, depth, x, [node]) <==> x == node || UnderSome(table, depth, x, kids) {
      UnderKids(table, depth, js, node, x);
      UnderOne(table, depth, x, node);
    }
    hide UnderSome, Distinct;
  }

  lemma UnderOne(table: seq<int>, depth: seq<nat>, x: nat, node: nat)
    requires Depths(table, depth) && node < |table|
    ensures UnderSome(table, depth, x, [node]) <==> Under(table, depth, x, node)
  {
    hide Under, Depths;
    assert node in [node];
  }

  lemma JointFits(table: seq<int>, depth: seq<nat>, js: set<nat>, node: nat, top: nat)
    requires Depths(table, depth) && Closed(table, js) && node in js && Shallow(depth, top)
    ensures node < |table| == |depth| && depth[node] + 1 <= top
  {}

  lemma BlockStep(table: seq<int>, depth: seq<nat>, js: set<nat>, node: nat, top: nat)
    requires Depths(table, depth) && node < |table| && Shallow(depth, top)
    ensures Level(table, depth, KidsOf(table, js, node), depth[node] + 1)
    ensures Block(table, depth, js, node, top) == [node]
            + Blocks(table, depth, js, KidsOf(table, js, node), depth[node] + 1, top)
  {
    KidsLevel(table, depth, js, node);
    hide Blocks;
  }

  lemma {:induction false} BlockOk(table: seq<int>, depth: seq<nat>, js: set<nat>, node: nat, top: nat)
    requires Depths(table, depth) && Closed(table, js) && node in js && Shallow(depth, top)
    ensures Covers(table, depth, js, Block(table, depth, js, node, top), [node])
    decreases top - depth[node], 0, 0
  {
    hide *;
    JointFits(table, depth, js, node, top);
    var kids := KidsOf(table, js, node);
    KidsLevel(table, depth, js, node);
    KidsOfRise(table, js, node);
    BlockStep(table, depth, js, node, top);
    BlocksOk(table, depth, js, kids, depth[node] + 1, top);
    ParentCovers(table, depth, js, node, Blocks(table, depth, js, kids, depth[node] + 1, top));
  }

  lemma NotUnderKids(table: seq<int>, depth: seq<nat>, js: set<nat>, node: nat)
    requires Depths(table, depth) && node < |table| && Level(table, depth, KidsOf(table, js, node), depth[node] + 1)
    ensures InTable(table, KidsOf(table, js, node)) && !UnderSome(table, depth, node, KidsOf(table, js, node))
  {}

  lemma SiblingsCover(table: seq<int>, depth: seq<nat>, js: set<nat>, list: seq<nat>, level: nat, first: seq<nat>,
                      rest: seq<nat>)
    requires Depths(table, depth) && list != [] && Level(table, depth, list, level) && Rising(list)
    requires InTable(table, [list[0]]) && InTable(table, list[1..]) && InTable(table, list)
    requires Covers(table, depth, js, first, [list[0]]) && Covers(table, depth, js, rest, list[1..])
    ensures Covers(table, depth, js, first + rest, list)
  {
    RisingRest(list);
    assert forall c :: c in list <==> c == list[0] || c in list[1..];
    LedJoin(table, first, rest, [list[0]], list[1..], list);
    SiblingsApart(table, depth, list, level);
    hide Led, Rising, Depths, Level, Under;
    forall x ensures UnderSome(table, depth, x, [list[0]]) <==> Under(table, depth, x, list[0]) {
      UnderOne(table, depth, x, list[0]);
    }
    hide UnderSome;
    DistinctJoin(first, rest);
    hide Distinct;
  }

  lemma {:induction false} BlocksOk(table: seq<int>, depth: seq<nat>, js: set<nat>, list: seq<nat>, level: nat,
                                    top: nat)
    requires Depths(table, depth) && Closed(table, js) && Level(table, depth, list, level) && level <= top
             && Shallow(depth, top)
    requires Rising(list) && forall c :: c in list ==> c in js
    ensures InTable(table, list) && Covers(table, depth, js, Blocks(table, depth, js, list, level, top), list)
    decreases top - level, 1, |list|
  {
    if list != [] {
      RisingRest(list);
      LevelRest(table, depth, list, level);
      assert list[0] in list;
      BlockOk(table, depth, js, list[0], top);
      BlocksOk(table, depth, js, list[1..], level, top);
      var first, rest := Block(table, depth, js, list[0], top), Blocks(table, depth, js, list[1..], level, top);
      assert Blocks(table, depth, js, list, level, top) == first + rest;
      hide Block, Blocks, Covers, Level, Rising, Depths, Closed, Shallow, InTable;
      SiblingsCover(table, depth, js, list, level, first, rest);
    }
  }

  lemma SiblingsApart(table: seq<int>, depth: seq<nat>, list: seq<nat>, level: nat)
    requires Depths(table, depth) && list != [] && Level(table, depth, list, level)
    requires forall i :: i in list[1..] ==> list[0] < i
    requires forall c :: c in list <==> c == list[0] || c in list[1..]
    ensures InTable(table, list) && InTable(table, list[1..]) && list[0] in list && list[0] < |table|
    ensures forall x :: Under(table, depth, x, list[0]) ==> !UnderSome(table, depth, x, list[1..])
    ensures forall x :: UnderSome(table, depth, x, list) <==>
                        Under(table, depth, x, list[0]) || UnderSome(table, depth, x, list[1..])
  {
    assert list[0] in list;
    hide Ancestor;
  }

  ghost predicate ParentsFirst(table: seq<int>, order: seq<nat>) {
    forall j: nat :: j < |order| ==> order[j] < |table| && (table[order[j]] >= 0 ==> Earlier(order, j, table[order[j]]))
  }

  /** The canonical order lists every joint once, each after its parent. */
  lemma OrderIsPermutation(table: seq<int>, depth: seq<nat>, js: set<nat>, top: nat)
    requires Depths(table, depth) && Closed(table, js) && Shallow(depth, top)
    ensures var o := Order(table, depth, js, top);
            Distinct(o) && ParentsFirst(table, o) && forall x :: x in o <==> x in js
  {
    var roots := KidsOf(table, js, -1);
    RootsLevel(table, depth, js);
    KidsRise(table, js, -1, |table|);
    BlocksOk(table, depth, js, roots, 0, top);
    hide Kids, KidsOf, Blocks, Depths, UnderSome;
    forall x | x in js ensures UnderSome(table, depth, x, roots) {
      UnderRoots(table, depth, js, x);
    }
    var o := Order(table, depth, js, top);
    forall j: nat | j < |o| ensures o[j] < |table| && (table[o[j]] >= 0 ==> Earlier(o, j, table[o[j]])) {
      assert o[j] in o;
    }
  }

  ghost function Above(depth: seq<nat>): (top: nat)
    ensures Shallow(depth, top)
  {
    if depth == [] then 0
    else
      var rest := Above(depth[..|depth| - 1]);
      assert forall i: nat :: i < |depth| - 1 ==> depth[i] == depth[..|depth| - 1][i];
      if depth[|depth| - 1] < rest then rest else depth[|depth| - 1] + 1
  }

  ghost function JointSet(joints: seq<int>): set<nat> {
    set j: nat | j in joints
  }

  /** The joints with the given parent, in ascending order. */
  method CollectChildren(table: seq<int>, joints: seq<nat>, parent: int) returns (children: seq<nat>)
    requires Distinct(joints) && InTable(table, joints)
    ensures children == KidsOf(table, JointSet(joints), parent)
  {
    children := [];
    for k: nat := 0 to |joints|
      invariant Distinct(children)
      invariant forall x :: x in children <==> x in joints[..k] && x < |table| && table[x] == parent
    {
      assert joints[..k + 1] == joints[..k] + [joints[k]];
      assert joints[k] in joints;
      if table[joints[k]] == parent {
        DistinctJoin(children, [joints[k]]);
        children := children + [joints[k]];
      }
    }
    assert joints[..|joints|] == joints;
    SortRises(children);
    KidsRise(table, JointSet(joints), parent, |table|);
    hide Rising, Distinct;
    RisingUnique(Sort(children), KidsOf(table, JointSet(joints), parent));
    children := Sort(children);
  }

  /** Appends a joint and, recursively, the joints below it. */
  method AppendSubtree(table: seq<int>, joints: seq<nat>, node: nat, before: seq<nat>, ghost depth: seq<nat>)
    returns (ordered: seq<nat>)
    requires Depths(table, depth) && Distinct(joints) && InTable(table, joints) && node < |table|
    ensures ordered == before + Block(table, depth, JointSet(joints), node, Above(depth))
    decreases Above(depth) - depth[node], 0, 0
  {
    ghost var js := JointSet(joints);
    ordered := before + [node];
    var children := CollectChildren(table, joints, node);
    KidsLevel(table, depth, js, node);
    hide Depths, Distinct, KidsOf, Above, JointSet;
    ordered := AppendAll(table, joints, children, depth[node] + 1, ordered, depth);
  }

  lemma BlocksStep(table: seq<int>, depth: seq<nat>, js: set<nat>, list: seq<nat>, level: nat, top: nat)
    requires Depths(table, depth) && Level(table, depth, list, level) && level <= top && Shallow(depth, top)
             && list != []
    ensures list[0] in list && Level(table, depth, list[1..], level)
    ensures Blocks(table, depth, js, list, level, top)
            == Block(table, depth, js, list[0], top) + Blocks(table, depth, js, list[1..], level, top)
  {
    LevelRest(table, depth, list, level);
    hide Block;
  }

  method AppendAll(table: seq<int>, joints: seq<nat>, list: seq<nat>, ghost level: nat, before: seq<nat>,
                   ghost depth: seq<nat>)
    returns (ordered: seq<nat>)
    requires Depths(table, depth) && Distinct(joints) && InTable(table, joints)
    requires Level(table, depth, list, level) && level <= Above(depth)
    ensures ordered == before + Blocks(table, depth, JointSet(joints), list, level, Above(depth))
    decreases Above(depth) - level, 1, |list|
  {
    hide Distinct, Above, JointSet;
    if list == [] {
      return before;
    }
    LevelRest(table, depth, list, level);
    BlocksStep(table, depth, JointSet(joints), list, level, Above(depth));
    hide Block, Blocks, Depths, Level;
    ordered := AppendSubtree(table, joints, list[0], before, depth);
    ordered := AppendAll(table, joints, list[1..], level, ordered, depth);
  }

  datatype SkinResult = MalformedJoints | UnsupportedParent | Unordered | Ordered(order: seq<nat>)

  ghost predicate JointsOk(table: seq<int>, raw: seq<int>) {
    && raw != [] && |raw| <= MAX_BONES && table != [] && Distinct(raw)
    && (forall j :: j in raw ==> 0 <= j < |table|)
  }

  method ReadJoints(table: seq<int>, raw: seq<int>) returns (ok: bool, joints: seq<nat>)
    ensures ok <==> JointsOk(table, raw)
    ensures ok ==> joints == raw
  {
    joints := [];
    if raw == [] || |raw| > MAX_BONES || table == [] {
      return false, joints;
    }
    for k: nat := 0 to |raw|
      invariant joints == raw[..k] && Distinct(joints)
      invariant forall j :: j in joints ==> j < |table|
    {
      assert raw[k] in raw && raw[..k + 1] == raw[..k] + [raw[k]];
      if raw[k] < 0 || raw[k] >= |table| || raw[k] in joints {
        assert raw[k] in joints ==> !Distinct(raw) by {
          if raw[k] in joints {
            var i: nat :| i < |joints| && joints[i] == raw[k];
            assert raw[i] == raw[k];
          }
        }
        return false, joints;
      }
      DistinctJoin(joints, [raw[k]]);
      joints := joints + [raw[k]];
    }
    assert raw[..|raw|] == raw;
    return true, joints;
  }

  method ParentsAreJoints(table: seq<int>, joints: seq<nat>) returns (ok: bool)
    requires InTable(table, joints) && TableOk(table)
    ensures ok <==> Closed(table, JointSet(joints))
  {
    for k: nat := 0 to |joints|
      invariant forall j :: j in joints[..k] && j < |table| && table[j] >= 0 ==> table[j] in joints
    {
      assert joints[k] in joints && joints[..k + 1] == joints[..k] + [joints[k]];
      var parent := table[joints[k]];
      if parent >= 0 && parent !in joints {
        return false;
      }
    }
    assert joints[..|joints|] == joints;
    return true;
  }

  /** Orders a skin's joints. Acceptable joints are always ordered, and canonically: the final size check never
      fails. */
  method OrderSkin(table: seq<int>, raw: seq<int>, ghost depth: seq<nat>) returns (r: SkinResult)
    requires Depths(table, depth)
    ensures r == MalformedJoints <==> !JointsOk(table, raw)
    ensures JointsOk(table, raw) ==> (r == UnsupportedParent <==> !Closed(table, JointSet(raw)))
    ensures JointsOk(table, raw) && Closed(table, JointSet(raw)) ==>
              && r.Ordered? && r.order == Order(table, depth, JointSet(raw), Above(depth)) && |r.order| == |raw|
              && Distinct(r.order) && ParentsFirst(table, r.order) && (forall x :: x in r.order <==> x in raw)
  {
    var ok, joints := ReadJoints(table, raw);
    if !ok {
      return MalformedJoints;
    }
    hide Depths, ParentsFirst, Above;
    assert TableOk(table) by { DepthsTable(table, depth); }
    ok := ParentsAreJoints(table, joints);
    if !ok {
      return UnsupportedParent;
    }
    ghost var js := JointSet(joints);
    var roots := CollectChildren(table, joints, -1);
    RootsLevel(table, depth, js);
    hide KidsOf;
    var ordered := AppendAll(table, joints, roots, 0, [], depth);
    OrderIsPermutation(table, depth, js, Above(depth));
    hide Order, Closed, Level;
    SameSize(ordered, joints);
    if |ordered| != |joints| {
      return Unordered;
    }
    return Ordered(ordered);
  }

  lemma DepthsTable(table: seq<int>, depth: seq<nat>)
    requires Depths(table, depth)
    ensures TableOk(table)
  {}

  lemma SameSize(a: seq<nat>, b: seq<nat>)
    requires Distinct(a) && Distinct(b) && forall x :: x in a <==> x in b
    ensures |a| == |b|
  {
    DistinctSize(a);
    DistinctSize(b);
    assert Elements(a) == Elements(b);
  }

  /** What the exported skeleton stores: each joint's place, and its parent's place. */
  ghost predicate Placed(table: seq<int>, order: seq<nat>, place: map<int, nat>, n: nat)
    requires n <= |order|
  {
    && (forall k: nat :: k < n ==> order[k] in place && place[order[k]] == k)
    && (forall x :: x in place ==> place[x] < n && order[place[x]] == x)
  }

  /** The parent of each joint by place: a root has none, any other has an earlier place. */
  ghost predicate Skeleton(table: seq<int>, order: seq<nat>, parents: seq<int>) {
    && |parents| <= |order| && (forall k: nat :: k < |order| ==> order[k] < |table|)
    && (forall k: nat :: k < |parents| ==> parents[k] < k && (parents[k] < 0 <==> table[order[k]] < 0))
    && (forall k: nat :: k < |parents| && parents[k] >= 0 ==> order[parents[k]] == table[order[k]])
  }

  method PlaceJoints(table: seq<int>, order: seq<nat>) returns (place: map<int, nat>)
    requires Distinct(order)
    ensures Placed(table, order, place, |order|)
  {
    place := map[];
    for k: nat := 0 to |order|
      invariant Placed(table, order, place, k)
    {
      place := place[order[k] := k];
    }
  }

  method ExportParents(table: seq<int>, order: seq<nat>) returns (parents: seq<int>)
    requires Distinct(order) && ParentsFirst(table, order)
    ensures |parents| == |order| && Skeleton(table, order, parents)
  {
    var place := PlaceJoints(table, order);
    parents := [];
    OrderInTable(table, order);
    hide ParentsFirst, Distinct;
    for k: nat := 0 to |order|
      invariant |parents| == k && Skeleton(table, order, parents)
    {
      var parent := table[order[k]];
      ParentPlaced(table, order, place, k);
      hide Placed;
      parents := parents + [if parent < 0 then -1 else place[parent]];
    }
  }

  lemma OrderInTable(table: seq<int>, order: seq<nat>)
    requires ParentsFirst(table, order)
    ensures forall k: nat :: k < |order| ==> order[k] < |table|
  {}

  lemma ParentPlaced(table: seq<int>, order: seq<nat>, place: map<int, nat>, k: nat)
    requires Placed(table, order, place, |order|) && ParentsFirst(table, order) && k < |order|
    ensures order[k] < |table|
    ensures table[order[k]] >= 0 ==>
              table[order[k]] in place && place[table[order[k]]] < k && order[place[table[order[k]]]] == table[order[k]]
  {}
}
