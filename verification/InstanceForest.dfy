/** Reparenting and destruction of instances, as the engine commits them. Signals are not modelled. */
module InstanceForest {
  import opened DependencyGraph
  import opened Options
  import opened ForestState
  import opened ForestMoves
  import opened ForestDestruction

  datatype Outcome =
    | Done
    | Unchanged
    | NotAlive
    | ForeignOwner
    | Cycle
    | TooLarge
    | NotAdoptable

  datatype Event =
    | New(isModel: bool)
    | Reparent(x: Id, value: Option<Id>, answers: Answers)
    | Remove(x: Id)

  datatype Snapshot = Snapshot(f: Forest, depth: map<Id, nat>)

  predicate Named(f: Forest, x: Id, value: Option<Id>) {
    x in f.ids && (value.Some? ==> value.value in f.ids)
  }

  /** `t` is what the event makes of `s`; an event that is refused or names nothing known changes nothing. */
  ghost predicate Follows(limit: nat, e: Event, s: Snapshot, t: Snapshot) {
    && Linked(s.f, s.depth)
    && match e
       case New(isModel) => exists x: Id :: x !in s.f.ids && t.f == Created(s.f, x, isModel)
       case Reparent(x, value, a) =>
         if Named(s.f, x, value) && Accepts(limit, s.f, s.depth, x, value, a) then Placed(s.f, s.depth, x, value, t.f)
         else t == s
       case Remove(x) =>
         if x in s.f.ids && x !in s.f.destroyed then
           exists gone :: IsSubtree(s.f, x, gone) && t.f == Prune(s.f, Homes(s.f, s.depth), gone)
         else t == s
  }

  /** The event puts a data model below a parent. */
  ghost predicate Nests(limit: nat, e: Event, s: Snapshot) {
    && e.Reparent? && e.value.Some? && e.x in s.f.models && Named(s.f, e.x, e.value)
    && Linked(s.f, s.depth) && Accepts(limit, s.f, s.depth, e.x, e.value, e.answers)
  }

  lemma DistinctWithin(s: seq<Id>, t: set<Id>)
    requires Distinct(s) && forall y :: y in s ==> y in t
    ensures |s| <= |t| && (|s| == |t| ==> Elements(s) == t)
  {
    DistinctSize(s);
    SubsetSize(Elements(s), t);
    if |s| == |t| {
      FullSubset(Elements(s), t);
    }
  }

  /** The worklist has seen `done` and still owes `todo`. */
  ghost predicate Collecting(f: Forest, depth: map<Id, nat>, x: Id, done: set<Id>, todo: set<Id>) {
    && done !! todo && done + todo <= f.ids && f.children.Keys == f.ids == depth.Keys
    && x in f.ids && x in done + todo
    && (forall y :: y in done + todo ==> depth[x] <= depth[y])
    && (forall y, c :: y in done && c in f.children[y] ==> c in done + todo)
    && (forall y :: y in done + todo && y != x ==> y in f.parent && f.parent[y] in done)
  }

  lemma ChildrenAreNew(f: Forest, depth: map<Id, nat>, x: Id, done: set<Id>, todo: set<Id>, y: Id)
    requires Linked(f, depth) && Collecting(f, depth, x, done, todo) && y in todo
    ensures forall c :: c in f.children[y] ==>
              c in f.ids && c in f.parent && f.parent[c] == y && depth[y] < depth[c] && c !in done + todo
  {
    hide Linked;
    forall c | c in f.children[y]
      ensures c in f.ids && c in f.parent && f.parent[c] == y && depth[y] < depth[c] && c !in done + todo
    {
      ChildAt(f, depth, y, c);
    }
  }

  /** Visiting `y`: its children are new to the worklist. */
  lemma CollectStep(f: Forest, depth: map<Id, nat>, x: Id, done: set<Id>, todo: set<Id>, y: Id)
    requires Linked(f, depth) && Collecting(f, depth, x, done, todo) && y in todo
    ensures Elements(f.children[y]) !! (done + todo)
    ensures Collecting(f, depth, x, done + {y}, todo - {y} + Elements(f.children[y]))
  {
    hide Linked;
    ChildrenAreNew(f, depth, x, done, todo, y);
    assert done + {y} + (todo - {y} + Elements(f.children[y])) == done + todo + Elements(f.children[y]);
  }

  lemma CollectDone(f: Forest, depth: map<Id, nat>, x: Id, done: set<Id>)
    requires Linked(f, depth) && Collecting(f, depth, x, done, {})
    ensures IsSubtree(f, x, done) && done == Subtree(f, depth, x)
  {
    SubtreeIs(f, depth, x);
    SubtreeUnique(f, depth, x, done, Subtree(f, depth, x));
  }

  lemma {:induction false} CollectUnder(f: Forest, depth: map<Id, nat>, x: Id, done: set<Id>, todo: set<Id>, y: Id)
    requires Linked(f, depth) && Collecting(f, depth, x, done, todo) && y in done + todo
    ensures y in Subtree(f, depth, x)
    decreases depth[y]
  {
    if y != x {
      CollectUnder(f, depth, x, done, todo, f.parent[y]);
    }
  }

  /** More nodes than the limit are already known to lie below `x`. */
  lemma CollectTooMany(f: Forest, depth: map<Id, nat>, x: Id, done: set<Id>, todo: set<Id>, limit: nat)
    requires Linked(f, depth) && Collecting(f, depth, x, done, todo) && |done + todo| > limit
    ensures |Subtree(f, depth, x)| > limit
  {
    forall y | y in done + todo ensures y in Subtree(f, depth, x) {
      CollectUnder(f, depth, x, done, todo, y);
    }
    SubsetSize(done + todo, Subtree(f, depth, x));
  }

  lemma DistinctConcat(a: seq<Id>, b: seq<Id>)
    requires Distinct(a) && Distinct(b) && Elements(a) !! Elements(b)
    ensures Distinct(a + b) && Elements(a + b) == Elements(a) + Elements(b)
  {
    forall i, j | 0 <= i < j < |a + b| ensures (a + b)[i] != (a + b)[j] {
      assert i < |a| <= j ==> a[i] in Elements(a) && b[j - |a|] in Elements(b);
    }
  }

  lemma DistinctPop(s: seq<Id>)
    requires Distinct(s) && s != []
    ensures Distinct(s[..|s| - 1]) && Elements(s[..|s| - 1]) == Elements(s) - {s[|s| - 1]}
  {
    assert s == s[..|s| - 1] + [s[|s| - 1]];
  }

  class Instances {
    const limit: nat
    var ids: set<Id>
    var models: set<Id>
    var parent: map<Id, Id>
    var children: map<Id, seq<Id>>
    var owner: map<Id, Id>
    var destroyed: set<Id>
    var count: map<Id, nat>
    ghost var depth: map<Id, nat>

    ghost function F(): Forest
      reads this
    {
      Forest(ids, models, parent, children, owner, destroyed, count)
    }

    ghost function Now(): Snapshot
      reads this
    {
      Snapshot(F(), depth)
    }

    ghost predicate Ok(dying: set<Id>)
      reads this
    {
      limit > 0 && Sound(limit, F(), depth, dying)
    }

    constructor (maximum: nat)
      requires maximum > 0
      ensures Ok({}) && Tidy(maximum, F()) && ids == {} && limit == maximum
    {
      limit := maximum;
      ids, models, destroyed := {}, {}, {};
      parent, children, owner, count, depth := map[], map[], map[], map[], map[];
    }

    /** The recorded owner, else the root of the tree when that is a data model. */
    method GetDataModel(x: Id) returns (r: Option<Id>)
      requires Linked(F(), depth) && x in ids
      ensures r == DataModelOf(F(), depth, x)
    {
      if x in owner {
        return Some(owner[x]);
      }
      var root := x;
      while root in parent
        invariant root in ids && Root(F(), depth, root) == Root(F(), depth, x)
        decreases depth[root]
      {
        root := parent[root];
      }
      r := if root in models then Some(root) else None;
    }

    /** Walks up from `start`; true when `x` is met. */
    method MeetsAncestor(start: Id, x: Id) returns (met: bool)
      requires Linked(F(), depth) && start in ids
      ensures met <==> start in Subtree(F(), depth, x)
    {
      var ancestor := start;
      while true
        invariant ancestor in ids
        invariant Under(F(), depth, start, x) <==> Under(F(), depth, ancestor, x)
        decreases depth[ancestor]
      {
        if ancestor == x {
          return true;
        }
        if ancestor !in parent {
          return false;
        }
        ancestor := parent[ancestor];
      }
    }

    /** Collects `x` and everything below it, or reports that the object limit is exceeded. */
    method CollectSubtree(x: Id) returns (ok: bool, subtree: seq<Id>)
      requires Linked(F(), depth) && x in ids && limit > 0
      ensures ok <==> |Subtree(F(), depth, x)| <= limit
      ensures ok ==> Distinct(subtree) && Elements(subtree) == Subtree(F(), depth, x)
    {
      hide Linked, Collecting, Distinct;
      CollectStart(F(), depth, x);
      subtree := [];
      var pending := [x];
      while pending != []
        invariant Distinct(subtree) && Distinct(pending)
        invariant Collecting(F(), depth, x, Elements(subtree), Elements(pending))
        invariant |subtree| + |pending| <= limit
        decreases |ids| - |subtree|
      {
        var node := pending[|pending| - 1];
        ghost var done, todo := Elements(subtree), Elements(pending);
        CollectStep(F(), depth, x, done, todo, node);
        CollectParts(F(), depth, x, subtree, pending, node);
        pending := pending[..|pending| - 1];
        subtree := subtree + [node];
        if |subtree| > limit {
          assert false;
        }
        if |children[node]| > limit - |subtree| - |pending| {
          CollectTooMany(F(), depth, x, done + {node}, todo - {node} + Elements(children[node]), limit);
          return false, subtree;
        }
        pending := pending + children[node];
      }
      assert Elements(pending) == {};
      CollectDone(F(), depth, x, Elements(subtree));
      DistinctSize(subtree);
      return true, subtree;
    }

    /** Gives one counted instance back; a data model always keeps the one for itself. */
    method ReleaseInstance(m: Id)
      requires m in count
      modifies this`count
      ensures count == OneFewer(old(count), m)
    {
      if count[m] > 1 {
        count := count[m := count[m] - 1];
      }
    }

    method OwnAll(subtree: seq<Id>, m: Id)
      requires Distinct(subtree) && m in count
      modifies this`owner, this`count
      ensures F() == Adopt(old(F()), Elements(subtree), m)
    {
      DistinctSize(subtree);
      count := count[m := count[m] + |subtree|];
      for i := 0 to |subtree|
        invariant count == old(count)[m := old(count)[m] + |subtree|]
        invariant owner == old(owner) + AllTo(Elements(subtree[..i]), m)
      {
        OwnOne(old(owner), subtree, i, m);
        owner := owner[subtree[i] := m];
      }
      assert subtree[..|subtree|] == subtree;
    }

    /** The rollback of a failed adoption: owners cleared, every counted instance given back. */
    method DisownAll(subtree: seq<Id>, m: Id)
      requires m in count && count[m] > |subtree|
      modifies this`owner, this`count
      ensures owner == old(owner) - Elements(subtree)
      ensures count == old(count)[m := old(count)[m] - |subtree|]
    {
      owner := owner - set y | y in subtree;
      for i := 0 to |subtree|
        invariant owner == old(owner) - Elements(subtree)
        invariant m in count && count[m] == old(count)[m] - i && count == old(count)[m := count[m]]
      {
        ReleaseInstance(m);
      }
    }

    /** First adoption: all checks, then counter, owners and tags; a refused tag commit undoes the rest. */
    method AdoptSubtree(subtree: seq<Id>, m: Id, a: Answers) returns (adopted: bool)
      requires Linked(F(), depth) && Distinct(subtree) && Elements(subtree) <= ids && m in count && count[m] > 0
      modifies this`owner, this`count
      ensures adopted <==> CanAdopt(limit, old(F()), depth, Elements(subtree), m, a)
      ensures F() == if adopted then Adopt(old(F()), Elements(subtree), m) else old(F())
    {
      hide Linked, DataModelOf;
      DistinctSize(subtree);
      if !(|subtree| <= limit && count[m] <= limit - |subtree|) {
        return false;
      }
      var free := CheckNodes(subtree);
      if !free || !a.adoptable {
        return false;
      }
      UnownedApart(F(), depth, Elements(subtree));
      hide Unowned;
      OwnAll(subtree, m);
      if !a.tagsCommit {
        DisownAll(subtree, m);
        assert owner == old(owner) && count == old(count);
        return false;
      }
      return true;
    }

    /** Every node of a subtree to adopt is alive and answers to nobody. */
    method CheckNodes(subtree: seq<Id>) returns (ok: bool)
      requires Linked(F(), depth) && Elements(subtree) <= ids
      ensures ok <==> Elements(subtree) !! destroyed && Unowned(F(), depth, Elements(subtree))
    {
      hide Linked, DataModelOf;
      for i := 0 to |subtree|
        invariant forall y :: y in Elements(subtree[..i]) ==>
                  y !in destroyed && y in ids && DataModelOf(F(), depth, y).None?
      {
        var node := subtree[i];
        assert node in Elements(subtree) && Elements(subtree[..i + 1]) == Elements(subtree[..i]) + {node};
        if node in destroyed {
          return false;
        }
        var model := GetDataModel(node);
        if model.Some? {
          return false;
        }
      }
      assert subtree[..|subtree|] == subtree;
      return true;
    }

    /** Detaches `x` from its parent. */
    method Detach(x: Id)
      requires x in ids && (x in parent ==> parent[x] in children)
      modifies this`parent, this`children
      ensures F() == Cut(old(F()), x)
    {
      if x in parent {
        var p := parent[x];
        children := children[p := Erase(children[p], x)];
        parent := parent - {x};
      }
    }

    /** Reparents `x`. Every refusal leaves the forest as it was; an accepted move keeps exact counts exact, and
        keeps parent and child on one data model exactly when the moved subtree allows it. */
    method SetParent(x: Id, value: Option<Id>, a: Answers, ghost dying: set<Id>) returns (r: Outcome)
      requires Ok(dying) && x in ids && (value.Some? ==> value.value in ids)
      modifies this
      ensures Ok(dying) && ids == old(ids) && models == old(models) && destroyed == old(destroyed)
      ensures r == Done <==> Accepts(limit, old(F()), old(depth), x, value, a)
      ensures r != Done ==> F() == old(F()) && depth == old(depth)
      ensures r == Done ==> Placed(old(F()), old(depth), x, value, F())
      ensures r == Done ==> MovedLinks(old(F()), x, value, F()) && MovedOwners(old(F()), old(depth), x, value, F())
      ensures r == Done && OneOwner(old(F()), old(depth)) ==>
                (OneOwner(F(), depth) <==> KeepsModel(old(F()), old(depth), x, value))
      ensures Counted(limit, F()) <==> Counted(limit, old(F()))
      ensures forall y :: y in old(owner) ==> y in owner && owner[y] == old(owner)[y]
      ensures value.None? ==> depth == old(depth)
    {
      hide Linked, Owners, Bounded, Retired, Counted, OneOwner, Subtree, Accepts, Placed, KeepsModel, MovedLinks,
        MovedOwners;
      ghost var f, d := F(), depth;
      r := Attempt(x, value, a, dying);
      if r == Done {
        PlacedReads(limit, f, d, x, value, a, F());
      }
      if r == Done && OneOwner(f, d) {
        PlacedOneOwner(limit, f, d, x, value, a, F(), depth);
      }
    }

    method Attempt(x: Id, value: Option<Id>, a: Answers, ghost dying: set<Id>) returns (r: Outcome)
      requires Ok(dying) && x in ids && (value.Some? ==> value.value in ids)
      modifies this
      ensures Ok(dying) && ids == old(ids) && models == old(models) && destroyed == old(destroyed)
      ensures r == Done <==> Accepts(limit, old(F()), old(depth), x, value, a)
      ensures r != Done ==> F() == old(F()) && depth == old(depth)
      ensures r == Done ==> Placed(old(F()), old(depth), x, value, F())
      ensures Counted(limit, F()) <==> Counted(limit, old(F()))
      ensures forall y :: y in old(owner) ==> y in owner && owner[y] == old(owner)[y]
      ensures value.None? ==> depth == old(depth)
    {
      hide Linked, Owners, Bounded, Retired, Counted, Subtree, DataModelOf, Cut, Attach, CanAdopt;
      LinkedAt(F(), depth, x);
      if x in destroyed && value.Some? {
        return NotAlive;
      }
      if value.Some? && value.value in destroyed {
        return NotAlive;
      }
      if (if x in parent then Some(parent[x]) else None) == value {
        return Unchanged;
      }
      if value.None? {
        r := DetachSubtree(x, dying);
      } else {
        r := MoveBelow(x, value.value, a, dying);
      }
    }

    method DetachSubtree(x: Id, ghost dying: set<Id>) returns (r: Outcome)
      requires Ok(dying) && x in ids && x in parent
      modifies this
      ensures r == Done || (r == TooLarge && F() == old(F()))
      ensures r == Done <==> |Subtree(old(F()), old(depth), x)| <= limit
      ensures depth == old(depth) && Ok(dying) && (Counted(limit, F()) <==> Counted(limit, old(F())))
      ensures old(parent)[x] in old(children) && (r == Done ==> F() == Cut(old(F()), x))
      ensures owner == old(owner) && ids == old(ids) && models == old(models) && destroyed == old(destroyed)
    {
      hide Linked, Owners, Bounded, Retired, Counted, Erase, Subtree;
      LinkedAt(F(), depth, x);
      var ok, subtree := CollectSubtree(x);
      if !ok {
        return TooLarge;
      }
      CutSound(limit, F(), depth, dying, x);
      Detach(x);
      return Done;
    }

    method MoveBelow(x: Id, p: Id, a: Answers, ghost dying: set<Id>) returns (r: Outcome)
      requires Ok(dying) && x in ids && p in ids && x !in destroyed && p !in destroyed
      requires !(x in parent && parent[x] == p)
      modifies this
      ensures Ok(dying) && ids == old(ids) && models == old(models) && destroyed == old(destroyed)
      ensures r == Done <==> Accepts(limit, old(F()), old(depth), x, Some(p), a)
      ensures r != Done ==> F() == old(F()) && depth == old(depth)
      ensures r == Done ==> Placed(old(F()), old(depth), x, Some(p), F())
      ensures Counted(limit, F()) <==> Counted(limit, old(F()))
      ensures forall y :: y in old(owner) ==> y in owner && owner[y] == old(owner)[y]
    {
      hide Linked, Owners, Bounded, Retired, Counted, Adopt, Cut, Attach, Subtree, CanAdopt, DataModelOf, IsSubtree;
      ghost var f, d, t := F(), depth, Subtree(F(), depth, x);
      LinkedAt(f, depth, p);
      LinkedAt(f, depth, x);
      SubtreeIs(f, depth, x);
      SubtreeWithin(f, x, t);
      ModelIsCounted(limit, f, depth, p);
      var subtree, newModel;
      r, subtree, newModel := CheckMove(x, p);
      if r != Done {
        return;
      }
      if newModel.Some? {
        var adopted := AdoptSubtree(subtree, newModel.value, a);
        if !adopted {
          return NotAdoptable;
        }
      }
      assert F() == Adopted(f, d, x, p, t);
      MoveSound(limit, f, d, dying, x, p, t, a);
      MovedFields(F(), x, p);
      Relink(x, p);
      depth := Sunk(depth, t, p);
    }

    method Relink(x: Id, p: Id)
      requires x in ids && (x in parent ==> parent[x] in children) && p in children
      modifies this`parent, this`children
      ensures p in Cut(old(F()), x).children && F() == Attach(Cut(old(F()), x), x, p)
    {
      hide Erase;
      Detach(x);
      parent := parent[x := p];
      children := children[p := children[p] + [x]];
    }

    /** The checks before anything changes; `adopter` is the data model of a first adoption. */
    method CheckMove(x: Id, p: Id) returns (r: Outcome, subtree: seq<Id>, adopter: Option<Id>)
      requires Linked(F(), depth) && limit > 0 && x in ids && p in ids
      ensures r == Done <==>
              && (DataModelOf(F(), depth, x).Some? ==> DataModelOf(F(), depth, p) == DataModelOf(F(), depth, x))
              && p !in Subtree(F(), depth, x) && |Subtree(F(), depth, x)| <= limit
      ensures r == Done ==> Distinct(subtree) && Elements(subtree) == Subtree(F(), depth, x)
      ensures r == Done ==> adopter == if FirstAdoption(F(), depth, x, p) then DataModelOf(F(), depth, p) else None
    {
      hide Linked, Subtree, DataModelOf;
      subtree, adopter := [], None;
      var oldModel := GetDataModel(x);
      var newModel := GetDataModel(p);
      if oldModel.Some? && newModel != oldModel {
        r := ForeignOwner;
        return;
      }
      var below := MeetsAncestor(p, x);
      if below {
        r := Cycle;
        return;
      }
      var ok;
      ok, subtree := CollectSubtree(x);
      if !ok {
        r := TooLarge;
        return;
      }
      if oldModel.None? {
        adopter := newModel;
      }
      r := Done;
    }

    /** Destroys `x` and everything below it, children first. `dying` are the ancestors being destroyed. */
    method DestroySubtree(x: Id, ghost dying: set<Id>) returns (ghost t: set<Id>)
      requires Ok(dying) && x in ids && x !in destroyed
      requires forall d :: d in dying ==> d in depth && depth[d] < depth[x]
      modifies this
      ensures Ok(dying) && ids == old(ids) && depth == old(depth)
      ensures IsSubtree(old(F()), x, t) && F() == Prune(old(F()), Homes(old(F()), old(depth)), t)
      decreases |ids - destroyed|
    {
      hide Linked, Owners, Bounded, Retired, IsSubtree, Prune, Sweep, Subtree, DataModelOf, Homes;
      ghost var f0, home := F(), Homes(F(), depth);
      LinkedAt(F(), depth, x);
      MarkSound(limit, f0, depth, dying, x);
      MarkHomes(f0, depth, x);
      destroyed := destroyed + {x};
      ghost var f1 := F();
      var model := GetDataModel(x);
      var copy := children[x];
      ghost var gone: set<Id> := {};
      SweepStart(limit, f1, depth, home, x);
      for i := 0 to |copy|
        invariant Ok(dying + {x}) && ids == f1.ids && depth == old(depth)
        invariant F() == Prune(f1, home, gone) && Sweep(f1, x, copy, i, gone)
      {
        SweepNext(limit, f1, home, depth, dying, x, i, gone);
        FewerLeft(f0, home, gone, x);
        ghost var below := DestroySubtree(copy[i], dying + {x});
        SweepStep(f1, home, depth, x, i, gone, below);
        SubtreeWithin(Prune(f1, home, gone), copy[i], below);
        PruneIds(f1, home, gone);
        SweepPrune(f1, home, depth, x, i, gone, below);
        gone := gone + below;
      }
      ghost var g := F();
      SweepDone(f1, home, depth, x, gone);
      HomeAt(f1, depth, home, x);
      FinishLeaf(x, model, home, dying);
      PruneTwice(f1, home, gone, {x});
      MarkPruned(f0, home, x, gone);
      t := gone + {x};
      MarkSubtree(f0, x, t);
    }

    /** The end of a destruction: detach the childless `x`, then release it from its data model. */
    method FinishLeaf(x: Id, model: Option<Id>, ghost home: map<Id, Option<Id>>, ghost dying: set<Id>)
      requires Ok(dying + {x}) && x in ids && x in destroyed && x in children && children[x] == []
      requires model == DataModelOf(F(), depth, x) && x in home && home[x] == model && Subtree(F(), depth, x) == {x}
      modifies this
      ensures Ok(dying) && ids == old(ids) && depth == old(depth) && F() == Prune(old(F()), home, {x})
    {
      hide Linked, Owners, Bounded, Retired, Prune, Subtree, OneFewer, DataModelOf, OneOwner, Counted, KeepsModel, Cut;
      ghost var g := F();
      LinkedAt(g, depth, x);
      ModelIsCounted(limit, g, depth, x);
      if x !in parent {
        CutNothing(g, x);
      }
      CutFields(g, x);
      var _ := SetParent(x, None, Answers(false, false), dying + {x});
      assert F() == Cut(g, x);
      ReleaseOwner(x, model);
      LeafGone(limit, g, depth, dying, x, home, F());
    }

    /** Clears the owner link of a detached instance and gives its place back to its data model. */
    method ReleaseOwner(x: Id, model: Option<Id>)
      requires model.Some? && model.value != x ==> model.value in count
      modifies this`owner, this`count
      ensures if model.Some? && model.value != x then owner == old(owner) - {x}
              && count == OneFewer(old(count), model.value)
              else owner == old(owner) && count == old(count)
    {
      if model.Some? && model.value != x {
        owner := owner - {x};
        ReleaseInstance(model.value);
      }
    }

    /** Destroys `x` with everything below it, if it is alive. One owner is always kept; exact counts are kept
        exactly when nothing goes that its data model never counted, or nothing counted stays. */
    method Destroy(x: Id) returns (ghost t: set<Id>)
      requires Ok({}) && x in ids
      modifies this
      ensures Ok({}) && ids == old(ids) && depth == old(depth) && t <= ids
      ensures x in old(destroyed) ==> t == {} && F() == old(F())
      ensures x !in old(destroyed) ==>
              IsSubtree(old(F()), x, t) && F() == Prune(old(F()), Homes(old(F()), old(depth)), t)
      ensures x !in old(destroyed) ==> DestroyedLinks(old(F()), x, t, F())
      ensures OneOwner(old(F()), old(depth)) ==> OneOwner(F(), depth)
      ensures Counted(limit, old(F())) ==> (Counted(limit, F()) <==> KeepsCounts(old(F()), old(depth), t))
      ensures Tidy(limit, old(F())) ==> Tidy(limit, F())
      ensures forall y :: y in old(owner) && y !in t ==> y in owner && owner[y] == old(owner)[y]
      ensures destroyed == old(destroyed) + t
    {
      hide Linked, Owners, Bounded, Retired, OneOwner, Counted, Tidy, Prune, IsSubtree, KeepsCounts, Homes,
        DestroyedLinks;
      t := {};
      if x in destroyed {
        NothingKept(F(), depth);
        return;
      }
      ghost var f := F();
      t := DestroySubtree(x, {});
      SubtreeWithin(f, x, t);
      SubtreeClosed(f, x, t);
      PrunedReads(f, depth, x, t);
      PrunedRest(f, Homes(f, depth), t);
      if OneOwner(f, depth) {
        PrunedOneOwner(f, Homes(f, depth), depth, t);
      }
      if Counted(limit, f) {
        PrunedCounted(limit, f, depth, t);
      }
      if Tidy(limit, f) {
        PrunedTidy(limit, f, depth, t);
      }
    }

    /** Adds a detached instance; a new data model counts itself. */
    method Create(isModel: bool) returns (x: Id)
      requires Ok({})
      modifies this
      ensures Ok({}) && x !in old(ids) && F() == Created(old(F()), x, isModel)
      ensures Tidy(limit, old(F())) ==> Tidy(limit, F())
    {
      hide Linked, Owners, Bounded, Retired, Tidy;
      x := FreshId();
      CreateSound(limit, F(), depth, x, isModel);
      ids := ids + {x};
      children := children[x := []];
      depth := depth[x := 0];
      if isModel {
        models := models + {x};
        count := count[x := 1];
      }
    }

    method FreshId() returns (x: Id)
      ensures x !in ids
    {
      x := 0;
      var rest := ids;
      while x in rest
        invariant rest <= ids && forall y :: y in ids && y !in rest ==> y < x
        decreases rest
      {
        rest := rest - {x};
        x := x + 1;
      }
    }

    /** Any run of creations, moves and destructions, refused ones included, goes step by step as the events say.
        Owners change only on destruction. Until an accepted move puts a data model below a parent, every promise
        about owners and counts holds. */
    method Run(events: seq<Event>) returns (nested: bool, ghost states: seq<Snapshot>)
      requires Ok({})
      modifies this
      ensures Ok({}) && |states| == |events| + 1 && states[0] == old(Now()) && states[|events|] == Now()
      ensures forall k: nat :: k < |events| ==> Follows(limit, events[k], states[k], states[k + 1])
      ensures nested <==> exists k: nat :: k < |events| && Nests(limit, events[k], states[k])
      ensures forall y :: y in old(owner) && y !in destroyed ==> y in owner && owner[y] == old(owner)[y]
      ensures !nested && Tidy(limit, old(F())) ==> Tidy(limit, F()) && OneOwner(F(), depth)
    {
      hide Linked, Owners, Bounded, Retired, Tidy, OneOwner, Follows, Nests;
      nested := false;
      states := [Now()];
      for k := 0 to |events|
        invariant Ok({}) && old(destroyed) <= destroyed
        invariant |states| == k + 1 && states[0] == old(Now()) && states[k] == Now()
        invariant forall i: nat :: i < k ==> Follows(limit, events[i], states[i], states[i + 1])
        invariant nested <==> exists i: nat :: i < k && Nests(limit, events[i], states[i])
        invariant forall y :: y in old(owner) && y !in destroyed ==> y in owner && owner[y] == old(owner)[y]
        invariant !nested && Tidy(limit, old(F())) ==> Tidy(limit, F())
      {
        var moved := Apply(events[k]);
        nested := nested || moved;
        states := states + [Now()];
      }
      if Tidy(limit, F()) {
        TidyOneOwner(limit, F(), depth);
      }
    }

    /** One event; `moved` reports an accepted move of a data model below a parent. */
    method Apply(event: Event) returns (moved: bool)
      requires Ok({})
      modifies this
      ensures Ok({}) && old(destroyed) <= destroyed
      ensures Follows(limit, event, old(Now()), Now())
      ensures moved <==> Nests(limit, event, old(Now()))
      ensures forall y :: y in old(owner) && y !in destroyed ==> y in owner && owner[y] == old(owner)[y]
      ensures !moved && Tidy(limit, old(F())) ==> Tidy(limit, F())
    {
      hide Linked, Owners, Bounded, Retired, Tidy, Accepts, Placed, Prune, IsSubtree, Homes, OneOwner, Counted,
        DestroyedLinks;
      moved := false;
      match event {
        case New(isModel) => var x := Create(isModel);
        case Reparent(x, value, a) =>
          if x in ids && (value.Some? ==> value.value in ids) {
            moved := ApplyMove(x, value, a);
          }
        case Remove(x) =>
          if x in ids {
            ghost var gone := Destroy(x);
          }
      }
    }

    method ApplyMove(x: Id, value: Option<Id>, a: Answers) returns (moved: bool)
      requires Ok({}) && Named(F(), x, value)
      modifies this
      ensures Ok({}) && destroyed == old(destroyed)
      ensures moved <==> value.Some? && x in old(models) && Accepts(limit, old(F()), old(depth), x, value, a)
      ensures if Accepts(limit, old(F()), old(depth), x, value, a) then Placed(old(F()), old(depth), x, value, F())
              else Now() == old(Now())
      ensures forall y :: y in old(owner) ==> y in owner && owner[y] == old(owner)[y]
      ensures !moved && Tidy(limit, old(F())) ==> Tidy(limit, F())
    {
      hide Linked, Owners, Bounded, Retired, Tidy, Accepts, Placed, OneOwner, KeepsModel, Counted, MovedLinks,
        MovedOwners;
      ghost var f, d := F(), depth;
      var r := SetParent(x, value, a, {});
      moved := r == Done && value.Some? && x in models;
      if r == Done && Tidy(limit, f) {
        TidyParts(limit, f);
        PlacedTidy(limit, f, d, x, value, a, F());
        TidyWhole(limit, F());
      }
    }
  }

  lemma TidyParts(limit: nat, f: Forest)
    requires Tidy(limit, f)
    ensures Shared(f) && TopModels(f) && Counted(limit, f)
  {}

  lemma TidyWhole(limit: nat, f: Forest)
    ensures Shared(f) && TopModels(f) && Counted(limit, f) ==> Tidy(limit, f)
  {}

  lemma TidyOneOwner(limit: nat, f: Forest, depth: map<Id, nat>)
    requires Linked(f, depth) && Tidy(limit, f)
    ensures OneOwner(f, depth)
  {
    hide Counted, DataModelOf;
    forall c | c in f.parent ensures c in f.ids && f.parent[c] in f.ids && SameModel(f, depth, c, f.parent[c]) {
      TopModelsAgree(f, depth, c);
      TopModelsAgree(f, depth, f.parent[c]);
    }
  }

  lemma CutNothing(g: Forest, x: Id)
    requires x !in g.parent
    ensures Cut(g, x) == g
  {}

  lemma PruneIds(f: Forest, home: map<Id, Option<Id>>, gone: set<Id>)
    ensures Prune(f, home, gone).ids == f.ids
  {}

  lemma HomeAt(f: Forest, depth: map<Id, nat>, home: map<Id, Option<Id>>, x: Id)
    requires Linked(f, depth) && home == Homes(f, depth) && x in f.ids
    ensures x in home && home[x] == DataModelOf(f, depth, x)
  {}

  lemma NothingKept(f: Forest, depth: map<Id, nat>)
    requires Linked(f, depth)
    ensures KeepsCounts(f, depth, {})
  {
    forall m ensures Strays(f, depth, {}, m) == {} {}
  }

  lemma SubtreeClosed(f: Forest, x: Id, t: set<Id>)
    requires IsSubtree(f, x, t)
    ensures forall z, c :: z in t && z in f.children && c in f.children[z] ==> c in t
  {}

  lemma PrunedRest(f: Forest, home: map<Id, Option<Id>>, t: set<Id>)
    ensures forall y :: y in f.owner && y !in t ==>
            y in Prune(f, home, t).owner && Prune(f, home, t).owner[y] == f.owner[y]
    ensures Prune(f, home, t).destroyed == f.destroyed + t
  {}

  /** The forest with a new, unrelated instance. */
  ghost function Created(f: Forest, x: Id, isModel: bool): Forest {
    var g := f.(ids := f.ids + {x}, children := f.children[x := []]);
    if isModel then g.(models := f.models + {x}, count := f.count[x := 1]) else g
  }

  lemma CreateSound(limit: nat, f: Forest, depth: map<Id, nat>, x: Id, isModel: bool)
    requires limit > 0 && Sound(limit, f, depth, {}) && x !in f.ids
    ensures Sound(limit, Created(f, x, isModel), depth[x := 0], {})
    ensures Tidy(limit, f) ==> Tidy(limit, Created(f, x, isModel))
  {
    hide Linked, Owners, Retired, Bounded, Counted, Shared, TopModels, Created;
    CreateLinked(f, depth, x, isModel);
    CreateBounded(limit, f, x, isModel);
    CreateRetired(f, depth, x, isModel);
    if Tidy(limit, f) {
      CreateShared(f, depth, x, isModel);
    }
  }

  lemma CreateRetired(f: Forest, depth: map<Id, nat>, x: Id, isModel: bool)
    requires Linked(f, depth) && Owners(f) && Retired(f, {}) && x !in f.ids
    ensures Owners(Created(f, x, isModel)) && Retired(Created(f, x, isModel), {})
    ensures TopModels(f) ==> TopModels(Created(f, x, isModel))
  {
    hide DownLinks, TidyLists, Deepening;
  }

  lemma CreateLinked(f: Forest, depth: map<Id, nat>, x: Id, isModel: bool)
    requires Linked(f, depth) && x !in f.ids
    ensures Linked(Created(f, x, isModel), depth[x := 0]) && x !in f.parent
  {}

  lemma CreateShared(f: Forest, depth: map<Id, nat>, x: Id, isModel: bool)
    requires Linked(f, depth) && Owners(f) && Shared(f) && x !in f.ids
    ensures Shared(Created(f, x, isModel))
  {
    hide DownLinks, TidyLists, Deepening;
    var g := Created(f, x, isModel);
    forall c | c in g.parent ensures OwnerOf(g, c) == OwnerOf(g, g.parent[c]) {
      assert OwnerOf(f, c) == OwnerOf(f, f.parent[c]);
    }
  }

  lemma CreateBounded(limit: nat, f: Forest, x: Id, isModel: bool)
    requires limit > 0 && Bounded(limit, f) && Owners(f) && x !in f.ids
    ensures Bounded(limit, Created(f, x, isModel))
    ensures Counted(limit, f) ==> Counted(limit, Created(f, x, isModel))
  {
    var g := Created(f, x, isModel);
    forall m | m in g.models ensures OwnedBy(g, m) == OwnedBy(f, m) && (m == x ==> OwnedBy(f, m) == {}) {}
    hide OwnedBy;
  }

  lemma OwnOne(owner: map<Id, Id>, subtree: seq<Id>, i: nat, m: Id)
    requires i < |subtree|
    ensures (owner + AllTo(Elements(subtree[..i]), m))[subtree[i] := m]
            == owner + AllTo(Elements(subtree[..i + 1]), m)
  {
    assert Elements(subtree[..i + 1]) == Elements(subtree[..i]) + {subtree[i]};
  }

  lemma CollectStart(f: Forest, depth: map<Id, nat>, x: Id)
    requires Linked(f, depth) && x in f.ids
    ensures Collecting(f, depth, x, Elements([]), Elements([x])) && Distinct<Id>([]) && Distinct([x])
  {
    assert Elements([x]) == {x};
  }

  /** The sequence side of visiting `node`, the last of `pending`. */
  lemma CollectParts(f: Forest, depth: map<Id, nat>, x: Id, subtree: seq<Id>, pending: seq<Id>, node: Id)
    requires Linked(f, depth) && Distinct(subtree) && Distinct(pending) && pending != []
             && node == pending[|pending| - 1]
    requires Collecting(f, depth, x, Elements(subtree), Elements(pending))
    ensures node in f.children
    ensures var rest := pending[..|pending| - 1];
            && Distinct(subtree + [node]) && Elements(subtree + [node]) == Elements(subtree) + {node}
            && Distinct(rest + f.children[node])
            && Elements(rest + f.children[node]) == Elements(pending) - {node} + Elements(f.children[node])
            && |subtree| < |f.ids|
            && |Elements(subtree) + {node} + (Elements(pending) - {node} + Elements(f.children[node]))|
               == |subtree| + |pending| + |f.children[node]|
  {
    hide Linked, Collecting;
    assert node in pending && node in Elements(pending);
    CollectStep(f, depth, x, Elements(subtree), Elements(pending), node);
    CollectFacts(f, depth, x, Elements(subtree), Elements(pending), node);
    MoveNode(subtree, pending, node, f.children[node]);
    DistinctWithin(subtree + [node], f.ids);
  }

  lemma CollectFacts(f: Forest, depth: map<Id, nat>, x: Id, done: set<Id>, todo: set<Id>, y: Id)
    requires Linked(f, depth) && Collecting(f, depth, x, done, todo) && y in todo
    ensures y in f.children && Distinct(f.children[y]) && done !! todo && done + todo <= f.ids
  {}

  lemma MoveNode(subtree: seq<Id>, pending: seq<Id>, node: Id, below: seq<Id>)
    requires Distinct(subtree) && Distinct(pending) && Distinct(below) && pending != []
             && node == pending[|pending| - 1]
    requires Elements(subtree) !! Elements(pending) && Elements(below) !! (Elements(subtree) + Elements(pending))
    ensures var rest := pending[..|pending| - 1];
            && Distinct(subtree + [node]) && Elements(subtree + [node]) == Elements(subtree) + {node}
            && Distinct(rest + below)
            && Elements(rest + below) == Elements(pending) - {node} + Elements(below)
            && |Elements(subtree) + {node} + (Elements(pending) - {node} + Elements(below))|
               == |subtree| + |pending| + |below|
  {
    var rest := pending[..|pending| - 1];
    assert node in pending && node in Elements(pending);
    DistinctPop(pending);
    DistinctConcat(subtree, [node]);
    assert Elements([node]) == {node};
    DistinctConcat(rest, below);
    DistinctSize(subtree + [node]);
    DistinctSize(rest + below);
  }
}
