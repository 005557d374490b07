/** One forward pass over a skeleton gives every joint the product of transforms along its whole lineage. */
module PoseHierarchy {
  import opened NodeForest
  import opened SkinOrder

  ghost predicate Associative<T(!new)>(mul: (T, T) -> T) {
    forall a, b, c :: mul(mul(a, b), c) == mul(a, mul(b, c))
  }

  function Product<T>(mul: (T, T) -> T, s: seq<T>): T
    requires s != []
  {
    if |s| == 1 then s[0] else mul(s[0], Product(mul, s[1..]))
  }

  lemma {:induction false} ProductAppend<T(!new)>(mul: (T, T) -> T, s: seq<T>, x: T)
    requires Associative(mul) && s != []
    ensures Product(mul, s + [x]) == mul(Product(mul, s), x)
  {
    assert (s + [x])[1..] == s[1..] + [x];
    if |s| > 1 {
      ProductAppend(mul, s[1..], x);
      var a, b := s[0], Product(mul, s[1..]);
      assert mul(mul(a, b), x) == mul(a, mul(b, x));
    }
  }

  ghost predicate Forward(parents: seq<int>) {
    forall k: nat :: k < |parents| ==> parents[k] < k
  }

  /** The places from the root down to place `k`. */
  ghost function Places(parents: seq<int>, k: nat): (s: seq<nat>)
    requires Forward(parents) && k < |parents|
    ensures s != [] && forall i: nat :: i < |s| ==> s[i] < |parents|
    decreases k
  {
    if parents[k] < 0 then [k] else Places(parents, parents[k]) + [k]
  }

  ghost function Pick<T>(locals: seq<T>, places: seq<nat>): (s: seq<T>)
    requires forall i: nat :: i < |places| ==> places[i] < |locals|
    ensures |s| == |places| && forall i: nat :: i < |s| ==> s[i] == locals[places[i]]
  {
    seq(|places|, i requires 0 <= i < |places| => locals[places[i]])
  }

  ghost function ModelOf<T>(mul: (T, T) -> T, parents: seq<int>, locals: seq<T>, k: nat): T
    requires Forward(parents) && |locals| == |parents| && k < |parents|
  {
    Product(mul, Pick(locals, Places(parents, k)))
  }

  /** What one step of the pass computes is the product along the lineage. */
  lemma ModelStep<T(!new)>(mul: (T, T) -> T, parents: seq<int>, locals: seq<T>, k: nat)
    requires Associative(mul) && Forward(parents) && |locals| == |parents| && k < |parents|
    ensures ModelOf(mul, parents, locals, k)
            == if parents[k] < 0 then locals[k] else mul(ModelOf(mul, parents, locals, parents[k]), locals[k])
  {
    if parents[k] < 0 {
      assert Places(parents, k) == [k];
    } else {
      var above := Places(parents, parents[k]);
      assert Pick(locals, above + [k]) == Pick(locals, above) + [locals[k]];
      ProductAppend(mul, Pick(locals, above), locals[k]);
    }
  }

  /** Computes all model transforms in place, in one pass; stops at the first that is not finite. */
  method EvaluateHierarchy<T(!new)>(mul: (T, T) -> T, finite: T -> bool, parents: seq<int>, locals: seq<T>,
                                    models: array<T>)
    returns (ok: bool)
    requires Associative(mul) && Forward(parents) && |locals| == |parents| == models.Length
    modifies models
    ensures ok <==> forall k: nat :: k < |parents| ==> finite(ModelOf(mul, parents, locals, k))
    ensures ok ==> forall k: nat :: k < |parents| ==> models[k] == ModelOf(mul, parents, locals, k)
  {
    hide Associative, ModelOf;
    for n: nat := 0 to |parents|
      invariant forall k: nat :: k < n ==> models[k] == ModelOf(mul, parents, locals, k)
      invariant forall k: nat :: k < n ==> finite(ModelOf(mul, parents, locals, k))
    {
      ModelStep(mul, parents, locals, n);
      models[n] := if parents[n] < 0 then locals[n] else mul(models[parents[n]], locals[n]);
      if !finite(models[n]) {
        return false;
      }
    }
    return true;
  }

  /** A node's ancestors in the scene, root first, ending with the node itself. */
  ghost function Lineage(table: seq<int>, depth: seq<nat>, x: nat): (s: seq<nat>)
    requires Depths(table, depth) && x < |table|
    ensures s != [] && forall i: nat :: i < |s| ==> s[i] < |table|
    decreases depth[x]
  {
    if table[x] < 0 then [x] else Lineage(table, depth, table[x]) + [x]
  }

  lemma SkeletonForward(table: seq<int>, order: seq<nat>, parents: seq<int>)
    requires Skeleton(table, order, parents)
    ensures Forward(parents)
  {}

  /** The places of the exported skeleton follow the scene's own ancestor chain. */
  lemma {:induction false} PlacesFollowLineage(table: seq<int>, depth: seq<nat>, order: seq<nat>, parents: seq<int>,
                                               k: nat)
    requires Depths(table, depth) && Skeleton(table, order, parents) && Forward(parents) && k < |parents| == |order|
    ensures order[k] < |table| && Pick(order, Places(parents, k)) == Lineage(table, depth, order[k])
    decreases k
  {
    if parents[k] >= 0 {
      var p: nat := parents[k];
      PlacesFollowLineage(table, depth, order, parents, p);
      assert order[p] == table[order[k]];
      assert Pick(order, Places(parents, p) + [k]) == Pick(order, Places(parents, p)) + [order[k]];
    }
  }

  /** Each joint's model transform is the ordered product of local transforms along its scene lineage. */
  lemma WholeLineage<T(!new)>(mul: (T, T) -> T, table: seq<int>, depth: seq<nat>, order: seq<nat>, parents: seq<int>,
                              nodeLocals: seq<T>, k: nat)
    requires Depths(table, depth) && Skeleton(table, order, parents) && Forward(parents) && k < |parents| == |order|
    requires |nodeLocals| == |table| && forall i: nat :: i < |order| ==> order[i] < |table|
    ensures ModelOf(mul, parents, Pick(nodeLocals, order), k)
            == Product(mul, Pick(nodeLocals, Lineage(table, depth, order[k])))
  {
    PlacesFollowLineage(table, depth, order, parents, k);
    var places := Places(parents, k);
    assert Pick(Pick(nodeLocals, order), places) == Pick(nodeLocals, Pick(order, places));
  }

  /** From a scene to the evaluated skeleton of one skin: order, export, evaluate. */
  method EvaluateSkin<T(!new, 0)>(mul: (T, T) -> T, finite: T -> bool, table: seq<int>, raw: seq<int>,
                                  nodeLocals: seq<T>, ghost depth: seq<nat>)
    returns (ok: bool, order: seq<nat>, models: array<T>)
    requires Associative(mul) && Depths(table, depth) && |nodeLocals| == |table|
    requires JointsOk(table, raw) && Closed(table, JointSet(raw))
    ensures models.Length == |order| == |raw| && fresh(models) && forall x :: x in order <==> x in raw
    ensures forall k: nat :: k < |order| ==> order[k] < |table|
    ensures ok ==> forall k: nat :: k < |order| ==>
            models[k] == Product(mul, Pick(nodeLocals, Lineage(table, depth, order[k])))
  {
    hide Associative, JointsOk, Closed, Order, Lineage, ModelOf, Depths;
    var r := OrderSkin(table, raw, depth);
    order := r.order;
    var parents := ExportParents(table, order);
    models := new T[|order|];
    SkeletonForward(table, order, parents);
    SkeletonInTable(table, order, parents);
    hide Skeleton;
    ghost var locals := Pick(nodeLocals, order);
    var picked := seq(|order|, i requires 0 <= i < |order| => nodeLocals[order[i]]);
    assert picked == locals;
    ok := EvaluateHierarchy(mul, finite, parents, picked, models);
    forall k: nat | k < |order| ensures order[k] < |table|
      && ModelOf(mul, parents, locals, k) == Product(mul, Pick(nodeLocals, Lineage(table, depth, order[k]))) {
      WholeLineage(mul, table, depth, order, parents, nodeLocals, k);
    }
  }

  lemma SkeletonInTable(table: seq<int>, order: seq<nat>, parents: seq<int>)
    requires Skeleton(table, order, parents)
    ensures forall k: nat :: k < |order| ==> order[k] < |table|
  {}
}
