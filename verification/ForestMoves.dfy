/** Reparenting on whole forests: what is accepted, what it leads to, and exactly what it keeps. */
module ForestMoves {
  import opened DependencyGraph
  import opened Options
  import opened ForestState

  /** Answers from outside the tree during one call: `adoptable` stands for the depth, schema, reference
      and tag checks of a first adoption, `tagsCommit` for the tag index taking the new members. */
  datatype Answers = Answers(adoptable: bool, tagsCommit: bool)

  /** A move below `p` brings a subtree that answers to nobody under `p`'s data model. */
  ghost predicate FirstAdoption(f: Forest, depth: map<Id, nat>, x: Id, p: Id)
    requires Linked(f, depth) && x in f.ids && p in f.ids
  {
    DataModelOf(f, depth, x).None? && DataModelOf(f, depth, p).Some?
  }

  ghost predicate Unowned(f: Forest, depth: map<Id, nat>, t: set<Id>)
    requires Linked(f, depth)
  {
    forall y :: y in t ==> y in f.ids && DataModelOf(f, depth, y).None?
  }

  ghost predicate CanAdopt(limit: nat, f: Forest, depth: map<Id, nat>, t: set<Id>, m: Id, a: Answers)
    requires Linked(f, depth)
  {
    && a.adoptable && a.tagsCommit && t !! f.destroyed && Unowned(f, depth, t)
    && m in f.count && f.count[m] + |t| <= limit
  }

  /** What the checks of SetParent let through. */
  ghost predicate Accepts(limit: nat, f: Forest, depth: map<Id, nat>, x: Id, value: Option<Id>, a: Answers)
    requires Linked(f, depth) && x in f.ids && (value.Some? ==> value.value in f.ids)
  {
    && |Subtree(f, depth, x)| <= limit
    && match value
       case None => x in f.parent
       case Some(p) =>
         && x !in f.destroyed && p !in f.destroyed && !(x in f.parent && f.parent[x] == p)
         && (DataModelOf(f, depth, x).Some? ==> DataModelOf(f, depth, p) == DataModelOf(f, depth, x))
         && p !in Subtree(f, depth, x)
         && (FirstAdoption(f, depth, x, p) ==>
               CanAdopt(limit, f, depth, Subtree(f, depth, x), DataModelOf(f, depth, p).value, a))
  }

  /** The forest after the adoption step of a move below `p`. */
  ghost function Adopted(f: Forest, depth: map<Id, nat>, x: Id, p: Id, t: set<Id>): Forest
    requires Linked(f, depth) && x in f.ids && p in f.ids
    requires FirstAdoption(f, depth, x, p) ==> DataModelOf(f, depth, p).value in f.count
  {
    if FirstAdoption(f, depth, x, p) then Adopt(f, t, DataModelOf(f, depth, p).value) else f
  }

  /** `g` is `f` with `x` and its whole subtree moved as `value` asks. */
  ghost predicate Placed(f: Forest, depth: map<Id, nat>, x: Id, value: Option<Id>, g: Forest)
    requires Linked(f, depth) && x in f.ids && (value.Some? ==> value.value in f.ids)
  {
    && (x in f.parent ==> f.parent[x] in f.children)
    && match value
       case None => g == Cut(f, x)
       case Some(p) =>
         && p in f.children && (FirstAdoption(f, depth, x, p) ==> DataModelOf(f, depth, p).value in f.count)
         && g == Attach(Cut(Adopted(f, depth, x, p, Subtree(f, depth, x)), x), x, p)
  }

  lemma LinkedAt(f: Forest, depth: map<Id, nat>, x: Id)
    requires Linked(f, depth) && x in f.ids
    ensures x in f.children && x in depth && (x in f.parent ==> f.parent[x] in f.children && f.parent[x] in f.ids)
  {}

  lemma ModelIsCounted(limit: nat, f: Forest, depth: map<Id, nat>, x: Id)
    requires Linked(f, depth) && Owners(f) && Bounded(limit, f) && x in f.ids
    ensures DataModelOf(f, depth, x).Some? ==>
              DataModelOf(f, depth, x).value in f.models && DataModelOf(f, depth, x).value in f.count
              && f.count[DataModelOf(f, depth, x).value] > 0
  {
    hide Linked, Root, OwnedBy;
  }

  lemma UnownedApart(f: Forest, depth: map<Id, nat>, t: set<Id>)
    requires Linked(f, depth) && Unowned(f, depth, t)
    ensures t !! f.owner.Keys
  {
    hide Linked, Root;
    forall y | y in t ensures y !in f.owner {
      assert DataModelOf(f, depth, y).None?;
    }
  }

  ghost predicate SameLinks(f: Forest, g: Forest) {
    g.ids == f.ids && g.models == f.models && g.parent == f.parent && g.children == f.children
      && g.destroyed == f.destroyed
  }

  lemma SameLinksLinked(f: Forest, g: Forest, depth: map<Id, nat>, x: Id, t: set<Id>)
    requires SameLinks(f, g) && Linked(f, depth) && IsSubtree(f, x, t)
    ensures Linked(g, depth) && IsSubtree(g, x, t)
  {}

  lemma MoveLinks(f: Forest, depth: map<Id, nat>, x: Id, p: Id, t: set<Id>)
    requires Linked(f, depth) && IsSubtree(f, x, t) && x in f.ids && p in f.ids && p !in t
    ensures (x in f.parent ==> f.parent[x] in f.children) && p in Cut(f, x).children
    ensures Linked(Attach(Cut(f, x), x, p), Sunk(depth, t, p))
  {
    hide Linked, IsSubtree;
    LinkedAt(f, depth, x);
    LinkedAt(f, depth, p);
    CutLinked(f, depth, x);
    CutSubtree(f, depth, x, t);
    AttachLinked(Cut(f, x), depth, x, p, t);
  }

  lemma CutRetired(f: Forest, depth: map<Id, nat>, dying: set<Id>, x: Id)
    requires Retired(f, dying) && Linked(f, depth) && x in f.ids
    ensures Retired(Cut(f, x), dying)
  {
    if x in f.parent {
      EraseTidy(f, x);
    }
  }

  lemma MoveRetired(f: Forest, g: Forest, depth: map<Id, nat>, dying: set<Id>, x: Id, p: Id)
    requires Retired(f, dying) && Linked(f, depth) && x in f.ids && p in f.ids && SameLinks(f, g)
    requires x !in f.destroyed && p !in f.destroyed
    requires forall y :: y in f.destroyed && y in g.owner ==> y in f.owner && g.owner[y] == f.owner[y]
    ensures (x in g.parent ==> g.parent[x] in g.children) && p in Cut(g, x).children
    ensures Retired(Attach(Cut(g, x), x, p), dying)
  {
    hide Erase;
    if x in f.parent {
      EraseTidy(f, x);
    }
  }

  /** Owners and counts do not depend on the links. */
  lemma LinksLeaveOwners(limit: nat, f: Forest, g: Forest)
    requires g.ids == f.ids && g.models == f.models && g.owner == f.owner && g.count == f.count
             && g.destroyed == f.destroyed
    ensures Owners(g) <==> Owners(f)
    ensures Bounded(limit, g) <==> Bounded(limit, f)
    ensures Counted(limit, g) <==> Counted(limit, f)
  {
    forall m ensures OwnedBy(g, m) == OwnedBy(f, m) {}
  }

  lemma CutSound(limit: nat, f: Forest, depth: map<Id, nat>, dying: set<Id>, x: Id)
    requires Sound(limit, f, depth, dying) && x in f.ids
    ensures (x in f.parent ==> f.parent[x] in f.children) && Sound(limit, Cut(f, x), depth, dying)
    ensures Counted(limit, Cut(f, x)) <==> Counted(limit, f)
  {
    hide Linked, Owners, Bounded, Retired, Counted, Erase;
    LinkedAt(f, depth, x);
    CutLinked(f, depth, x);
    CutRetired(f, depth, dying, x);
    LinksLeaveOwners(limit, f, Cut(f, x));
  }

  /** The adoption step of an accepted move. */
  lemma AdoptedSound(limit: nat, f: Forest, depth: map<Id, nat>, x: Id, p: Id, t: set<Id>, a: Answers)
    requires Linked(f, depth) && Owners(f) && Bounded(limit, f) && x in f.ids && p in f.ids && t <= f.ids
    requires FirstAdoption(f, depth, x, p) ==> CanAdopt(limit, f, depth, t, DataModelOf(f, depth, p).value, a)
    ensures FirstAdoption(f, depth, x, p) ==> DataModelOf(f, depth, p).value in f.count
    ensures var g := Adopted(f, depth, x, p, t);
            && SameLinks(f, g) && Owners(g) && Bounded(limit, g) && (Counted(limit, g) <==> Counted(limit, f))
            && (forall y :: y in f.owner ==> y in g.owner && g.owner[y] == f.owner[y])
            && (forall y :: y in f.destroyed && y in g.owner ==> y in f.owner)
  {
    hide Linked, DataModelOf;
    if FirstAdoption(f, depth, x, p) {
      var m := DataModelOf(f, depth, p).value;
      ModelIsCounted(limit, f, depth, p);
      UnownedApart(f, depth, t);
      hide Bounded, Counted;
      AdoptBounded(limit, f, t, m);
      AdoptCounted(limit, f, t, m);
    }
  }

  /** An accepted move keeps everything that holds in every reachable forest, and the exactness of counts. */
  lemma MoveSound(limit: nat, f: Forest, depth: map<Id, nat>, dying: set<Id>, x: Id, p: Id, t: set<Id>, a: Answers)
    requires Sound(limit, f, depth, dying) && x in f.ids && p in f.ids && IsSubtree(f, x, t) && p !in t
    requires x !in f.destroyed && p !in f.destroyed
    requires FirstAdoption(f, depth, x, p) ==> CanAdopt(limit, f, depth, t, DataModelOf(f, depth, p).value, a)
    ensures FirstAdoption(f, depth, x, p) ==> DataModelOf(f, depth, p).value in f.count
    ensures var g := Adopted(f, depth, x, p, t);
            && (x in g.parent ==> g.parent[x] in g.children) && p in Cut(g, x).children
            && Sound(limit, Attach(Cut(g, x), x, p), Sunk(depth, t, p), dying)
            && (Counted(limit, Attach(Cut(g, x), x, p)) <==> Counted(limit, f))
            && (forall y :: y in f.owner ==> y in g.owner && g.owner[y] == f.owner[y])
  {
    hide Linked, Owners, Bounded, Retired, Counted, Erase, DataModelOf, CanAdopt, FirstAdoption, Adopted;
    SubtreeWithin(f, x, t);
    AdoptedSound(limit, f, depth, x, p, t, a);
    var g := Adopted(f, depth, x, p, t);
    LinkedAt(f, depth, p);
    SameLinksLinked(f, g, depth, x, t);
    MoveLinks(g, depth, x, p, t);
    MoveRetired(f, g, depth, dying, x, p);
    LinksLeaveOwners(limit, g, Attach(Cut(g, x), x, p));
  }

  lemma SubtreeWithin(f: Forest, x: Id, t: set<Id>)
    requires IsSubtree(f, x, t)
    ensures t <= f.ids && x in t
  {}

  // ---- Exactly when parent and child go on answering to the same data model

  /** Everything moved is owned, or it answers to nobody, or the target stands below the data model itself. */
  ghost predicate KeepsModel(f: Forest, depth: map<Id, nat>, x: Id, value: Option<Id>)
    requires Linked(f, depth) && x in f.ids && (value.Some? ==> value.value in f.ids)
  {
    var t := Subtree(f, depth, x);
    match value
    case None => t <= f.owner.Keys || t !! f.owner.Keys
    case Some(p) =>
      DataModelOf(f, depth, x).None? || t <= f.owner.Keys || Root(f, depth, p) == DataModelOf(f, depth, x).value
  }

  /** In a forest with one owner throughout, a subtree answers as its root does. */
  lemma SubtreeModel(f: Forest, depth: map<Id, nat>, x: Id, t: set<Id>, y: Id)
    requires Linked(f, depth) && OneOwner(f, depth) && IsSubtree(f, x, t) && y in t && x in f.ids
    ensures y in f.ids && DataModelOf(f, depth, y) == DataModelOf(f, depth, x) && Root(f, depth, y) == Root(f, depth, x)
  {
    hide Linked, OneOwner, DataModelOf;
    SubtreeRootSame(f, depth, x, t, y);
    TreeIsUniform(f, depth, x);
    TreeIsUniform(f, depth, y);
  }

  /** The moved nodes `t` answer to `d`, and so does what they hang below; nothing else changes. */
  lemma UniformIsOne(f: Forest, depth: map<Id, nat>, g: Forest, sunk: map<Id, nat>, x: Id, t: set<Id>, d: Option<Id>)
    requires Linked(f, depth) && Linked(g, sunk) && OneOwner(f, depth) && IsSubtree(f, x, t) && g.ids == f.ids
    requires forall c :: c in g.parent && c != x ==> c in f.parent && g.parent[c] == f.parent[c]
    requires x in g.parent ==> g.parent[x] !in t && DataModelOf(g, sunk, g.parent[x]) == d
    requires forall y :: y in t ==> DataModelOf(g, sunk, y) == d
    requires forall y :: y in f.ids && y !in t ==> DataModelOf(g, sunk, y) == DataModelOf(f, depth, y)
    ensures OneOwner(g, sunk)
  {
    hide DataModelOf, TidyLists, Deepening;
    forall c | c in g.parent ensures c in g.ids && g.parent[c] in g.ids && SameModel(g, sunk, c, g.parent[c]) {
      if c != x && c !in t {
        assert SameModel(f, depth, c, f.parent[c]);
        assert c in f.children[f.parent[c]];
      }
    }
  }

  /** What the nodes answer to after a move without adoption. */
  lemma MovedModels(f: Forest, depth: map<Id, nat>, g: Forest, sunk: map<Id, nat>, x: Id, p: Id, t: set<Id>, y: Id)
    requires Linked(f, depth) && Linked(g, sunk) && IsSubtree(f, x, t) && p in f.ids && p !in t && y in f.ids
    requires g.ids == f.ids && g.parent == f.parent[x := p] && g.models == f.models
    requires (y in g.owner <==> y in f.owner) && (y in f.owner ==> g.owner[y] == f.owner[y])
    ensures DataModelOf(g, sunk, y)
            == if y in t then AnswerUnder(f, y, Root(f, depth, p)) else DataModelOf(f, depth, y)
  {
    hide Linked, IsSubtree;
    MoveRoots(f, g, depth, sunk, x, p, t, y);
  }

  lemma MoveOneOwner(f: Forest, depth: map<Id, nat>, g: Forest, sunk: map<Id, nat>, x: Id, p: Id, t: set<Id>)
    requires Linked(f, depth) && Linked(g, sunk) && OneOwner(f, depth) && IsSubtree(f, x, t) && p in f.ids && p !in t
             && x in f.ids
    requires g.ids == f.ids && g.parent == f.parent[x := p] && g.models == f.models && g.owner == f.owner
    requires DataModelOf(f, depth, x) == DataModelOf(f, depth, p)
    ensures OneOwner(g, sunk) <==>
            DataModelOf(f, depth, x).None? || t <= f.owner.Keys || Root(f, depth, p) == DataModelOf(f, depth, x).value
  {
    hide Linked, OneOwner, IsSubtree;
    var d := DataModelOf(f, depth, p);
    forall y | y in f.ids
      ensures DataModelOf(g, sunk, y)
              == if y in t then AnswerUnder(f, y, Root(f, depth, p)) else DataModelOf(f, depth, y) {
      MovedModels(f, depth, g, sunk, x, p, t, y);
    }
    SubtreeWithin(f, x, t);
    forall y | y in t ensures DataModelOf(f, depth, y) == d {
      SubtreeModel(f, depth, x, t, y);
    }
    if d.None? || t <= f.owner.Keys || Root(f, depth, p) == d.value {
      hide Root;
      UniformIsOne(f, depth, g, sunk, x, t, d);
    } else {
      var y :| y in t && y !in f.owner;
      MixedMove(f, depth, g, sunk, x, p, t, y);
    }
  }

  /** An unowned node of the moved subtree no longer answers as the new parent does. */
  lemma MixedMove(f: Forest, depth: map<Id, nat>, g: Forest, sunk: map<Id, nat>, x: Id, p: Id, t: set<Id>, y: Id)
    requires Linked(f, depth) && Linked(g, sunk) && IsSubtree(f, x, t) && p in f.ids && p !in t && y in t
             && y in f.ids && y !in f.owner
    requires g.ids == f.ids && g.parent == f.parent[x := p] && g.models == f.models && g.owner == f.owner
    requires DataModelOf(f, depth, p).Some? && Root(f, depth, p) != DataModelOf(f, depth, p).value
    ensures !OneOwner(g, sunk)
  {
    hide Linked, IsSubtree, OneOwner;
    MovedModels(f, depth, g, sunk, x, p, t, y);
    MovedModels(f, depth, g, sunk, x, p, t, p);
    MoveRoots(f, g, depth, sunk, x, p, t, y);
    MoveRoots(f, g, depth, sunk, x, p, t, p);
    if OneOwner(g, sunk) {
      TreeIsUniform(g, sunk, y);
      TreeIsUniform(g, sunk, p);
    }
  }

  /** An adopted subtree answers to its new data model throughout. */
  lemma AdoptOneOwner(f: Forest, depth: map<Id, nat>, g: Forest, sunk: map<Id, nat>, x: Id, p: Id, t: set<Id>)
    requires Linked(f, depth) && Linked(g, sunk) && OneOwner(f, depth) && IsSubtree(f, x, t) && p in f.ids && p !in t
             && x in f.ids
    requires g.ids == f.ids && g.parent == f.parent[x := p] && g.models == f.models
    requires DataModelOf(f, depth, p).Some? && g.owner == f.owner + AllTo(t, DataModelOf(f, depth, p).value)
    ensures OneOwner(g, sunk)
  {
    hide Linked, OneOwner, IsSubtree;
    var d := DataModelOf(f, depth, p);
    SubtreeWithin(f, x, t);
    forall y | y in f.ids && y !in t ensures DataModelOf(g, sunk, y) == DataModelOf(f, depth, y) {
      MovedModels(f, depth, g, sunk, x, p, t, y);
    }
    hide Root;
    UniformIsOne(f, depth, g, sunk, x, t, d);
  }

  lemma CutModels(f: Forest, depth: map<Id, nat>, g: Forest, x: Id, t: set<Id>, y: Id)
    requires Linked(f, depth) && Linked(g, depth) && IsSubtree(f, x, t) && y in f.ids
    requires g.ids == f.ids && g.parent == f.parent - {x} && g.models == f.models && g.owner == f.owner
    ensures DataModelOf(g, depth, y) == if y in t then AnswerUnder(f, y, x) else DataModelOf(f, depth, y)
    ensures y in t ==> Root(g, depth, y) == x
  {
    hide Linked, IsSubtree;
    CutRoots(f, g, depth, x, t, y);
  }

  lemma DetachOneOwner(f: Forest, depth: map<Id, nat>, g: Forest, x: Id, t: set<Id>)
    requires Linked(f, depth) && Linked(g, depth) && OneOwner(f, depth) && IsSubtree(f, x, t) && x in f.parent
             && x in f.ids
    requires g.ids == f.ids && g.parent == f.parent - {x} && g.models == f.models && g.owner == f.owner
    ensures OneOwner(g, depth) <==> t <= f.owner.Keys || t !! f.owner.Keys
  {
    hide Linked, OneOwner, IsSubtree;
    SubtreeWithin(f, x, t);
    forall y | y in f.ids ensures DataModelOf(g, depth, y) == if y in t then AnswerUnder(f, y, x)
      else DataModelOf(f, depth, y) {
      CutModels(f, depth, g, x, t, y);
    }
    forall y | y in t ensures DataModelOf(f, depth, y) == DataModelOf(f, depth, x)
      && Root(f, depth, y) == Root(f, depth, x) {
      SubtreeModel(f, depth, x, t, y);
    }
    if t <= f.owner.Keys || t !! f.owner.Keys {
      UniformIsOne(f, depth, g, depth, x, t, AnswerUnder(f, x, x));
    } else {
      var y, z :| y in t && z in t && y in f.owner && z !in f.owner;
      CutModels(f, depth, g, x, t, y);
      CutModels(f, depth, g, x, t, z);
      if OneOwner(g, depth) {
        TreeIsUniform(g, depth, y);
        TreeIsUniform(g, depth, z);
      }
    }
  }

  lemma CutFields(f: Forest, x: Id)
    requires x in f.parent ==> f.parent[x] in f.children
    ensures var g := Cut(f, x);
            g.ids == f.ids && g.parent == f.parent - {x} && g.models == f.models && g.owner == f.owner
            && g.destroyed == f.destroyed && g.count == f.count
  {}

  lemma MovedFields(f: Forest, x: Id, p: Id)
    requires (x in f.parent ==> f.parent[x] in f.children) && p in f.children
    ensures p in Cut(f, x).children
    ensures var g := Attach(Cut(f, x), x, p);
            g.ids == f.ids && g.parent == f.parent[x := p] && g.models == f.models && g.owner == f.owner
            && g.destroyed == f.destroyed && g.count == f.count
  {
    hide Erase;
  }

  lemma PlacedBelowOneOwner(limit: nat, f: Forest, depth: map<Id, nat>, x: Id, p: Id, a: Answers, g: Forest,
                            sunk: map<Id, nat>)
    requires Linked(f, depth) && Linked(g, sunk) && OneOwner(f, depth) && x in f.ids && p in f.ids
    requires Accepts(limit, f, depth, x, Some(p), a) && Placed(f, depth, x, Some(p), g)
    ensures OneOwner(g, sunk) <==> KeepsModel(f, depth, x, Some(p))
  {
    SubtreeIs(f, depth, x);
    hide Linked, OneOwner, IsSubtree, Subtree, DataModelOf, CanAdopt, Cut, Attach;
    var t := Subtree(f, depth, x);
    MovedFields(Adopted(f, depth, x, p, t), x, p);
    if FirstAdoption(f, depth, x, p) {
      AdoptOneOwner(f, depth, g, sunk, x, p, t);
    } else {
      MoveOneOwner(f, depth, g, sunk, x, p, t);
    }
  }

  /** From a forest with one owner throughout, an accepted move keeps it so exactly under a condition on the move. */
  lemma PlacedOneOwner(limit: nat, f: Forest, depth: map<Id, nat>, x: Id, value: Option<Id>, a: Answers, g: Forest,
                       sunk: map<Id, nat>)
    requires Linked(f, depth) && Linked(g, sunk) && OneOwner(f, depth) && x in f.ids
             && (value.Some? ==> value.value in f.ids)
    requires Accepts(limit, f, depth, x, value, a) && Placed(f, depth, x, value, g) && (value.None? ==> sunk == depth)
    ensures OneOwner(g, sunk) <==> KeepsModel(f, depth, x, value)
  {
    hide Linked, OneOwner, IsSubtree, Subtree, DataModelOf, Cut;
    if value.None? {
      SubtreeIs(f, depth, x);
      CutFields(f, x);
      DetachOneOwner(f, depth, g, x, Subtree(f, depth, x));
    } else {
      PlacedBelowOneOwner(limit, f, depth, x, value.value, a, g, sunk);
    }
  }

  // ---- While no data model is moved below a parent

  lemma SubtreeOwner(f: Forest, depth: map<Id, nat>, x: Id, t: set<Id>)
    requires Linked(f, depth) && Shared(f) && IsSubtree(f, x, t)
    ensures forall y :: y in t ==> OwnerOf(f, y) == OwnerOf(f, x)
    ensures OwnerOf(f, x).None? ==> t !! f.owner.Keys && t !! f.models
  {
    hide Linked, IsSubtree;
    forall y | y in t ensures OwnerOf(f, y) == OwnerOf(f, x) {
      SubtreeShares(f, depth, x, t, y);
    }
  }

  /** Who owns whom after the adoption step of a move below `p`. */
  lemma OwnersReady(f: Forest, depth: map<Id, nat>, x: Id, p: Id, t: set<Id>, g: Forest)
    requires Linked(f, depth) && Owners(f) && Shared(f) && IsSubtree(f, x, t) && p in f.ids && p !in t
    requires OwnerOf(f, x).Some? ==> OwnerOf(f, p) == OwnerOf(f, x)
    requires g.models == f.models
    requires g.owner == if OwnerOf(f, x).None? && OwnerOf(f, p).Some? then f.owner + AllTo(t, OwnerOf(f, p).value)
             else f.owner
    ensures forall y :: y in f.ids && y !in t ==> OwnerOf(g, y) == OwnerOf(f, y)
    ensures forall y :: y in t ==> OwnerOf(g, y) == OwnerOf(f, p)
    ensures forall y :: y in g.owner ==> y !in g.models
  {
    hide Linked;
    SubtreeOwner(f, depth, x, t);
  }

  lemma MoveShared(f: Forest, depth: map<Id, nat>, x: Id, p: Id, t: set<Id>, g: Forest)
    requires Linked(f, depth) && Owners(f) && Shared(f) && IsSubtree(f, x, t) && x in f.ids && p in f.ids && p !in t
    requires OwnerOf(f, x).Some? ==> OwnerOf(f, p) == OwnerOf(f, x)
    requires SameLinks(f, g)
    requires g.owner == if OwnerOf(f, x).None? && OwnerOf(f, p).Some? then f.owner + AllTo(t, OwnerOf(f, p).value)
             else f.owner
    ensures (x in g.parent ==> g.parent[x] in g.children) && p in Cut(g, x).children
    ensures Shared(Attach(Cut(g, x), x, p))
  {
    hide Linked, IsSubtree, Erase;
    LinkedAt(f, depth, x);
    LinkedAt(f, depth, p);
    OwnersReady(f, depth, x, p, t, g);
    CutLinked(f, depth, x);
    CutSubtree(f, depth, x, t);
    CutShared(f, depth, x);
    CutOwners(f, x);
    CutOwners(g, x);
    hide OwnerOf, Shared, Owners;
    AttachShared(Cut(f, x), Cut(g, x), depth, x, p, t);
  }

  lemma CutOwners(f: Forest, x: Id)
    requires x in f.parent ==> f.parent[x] in f.children
    ensures forall y :: OwnerOf(Cut(f, x), y) == OwnerOf(f, y)
    ensures Cut(f, x).owner == f.owner && Cut(f, x).models == f.models && Cut(f, x).ids == f.ids
  {}

  /** An accepted move leaves one recorded owner for parent and child, and data models as roots unless one was moved. */
  lemma PlacedTidy(limit: nat, f: Forest, depth: map<Id, nat>, x: Id, value: Option<Id>, a: Answers, g: Forest)
    requires Linked(f, depth) && Owners(f) && Shared(f) && TopModels(f) && x in f.ids
             && (value.Some? ==> value.value in f.ids)
    requires Accepts(limit, f, depth, x, value, a) && Placed(f, depth, x, value, g)
    ensures Shared(g) && (TopModels(g) <==> !(value.Some? && x in f.models))
  {
    hide Linked, Owners, Shared, OwnerOf, IsSubtree, Subtree, DataModelOf, Cut, Attach, CanAdopt;
    if value.None? {
      CutShared(f, depth, x);
      CutFields(f, x);
    } else {
      var p, t := value.value, Subtree(f, depth, x);
      var h := Adopted(f, depth, x, p, t);
      SubtreeIs(f, depth, x);
      TopModelsAgree(f, depth, x);
      TopModelsAgree(f, depth, p);
      MovedFields(h, x, p);
      MoveShared(f, depth, x, p, t, h);
    }
  }

  // What an accepted move does, link by link.

  /** One list is the other without the entry at some place, where `x` stands. */
  ghost predicate LostOne(s: seq<Id>, r: seq<Id>, x: Id) {
    exists k: nat :: k < |s| && s[k] == x && r == s[..k] + s[k + 1..]
  }

  lemma LostLater(s: seq<Id>, r: seq<Id>, x: Id)
    requires s != [] && LostOne(s[1..], r, x)
    ensures LostOne(s, [s[0]] + r, x)
  {
    var rest := s[1..];
    var k: nat :| k < |rest| && rest[k] == x && r == rest[..k] + rest[k + 1..];
    assert s[..k + 1] == [s[0]] + rest[..k] && s[k + 2..] == rest[k + 1..];
    assert s[k + 1] == x && [s[0]] + r == s[..k + 1] + s[k + 1 + 1..];
  }

  lemma {:induction false} ErasedAt(s: seq<Id>, x: Id)
    requires x in s
    ensures LostOne(s, Erase(s, x), x)
  {
    if s[0] == x {
      assert s[0] == x && Erase(s, x) == s[..0] + s[0 + 1..];
    } else {
      ErasedAt(s[1..], x);
      LostLater(s, Erase(s[1..], x), x);
    }
  }

  /** `x` is the last child of its new parent and gone from the list of its old one; no other link differs. */
  ghost predicate MovedLinks(f: Forest, x: Id, value: Option<Id>, g: Forest) {
    && g.ids == f.ids && g.models == f.models && g.destroyed == f.destroyed && g.children.Keys == f.children.Keys
    && (if value.Some? then x in g.parent && g.parent[x] == value.value else x !in g.parent)
    && (forall y :: y != x ==> (y in g.parent <==> y in f.parent))
    && (forall y :: y != x && y in f.parent ==> y in g.parent && g.parent[y] == f.parent[y])
    && forall q :: q in f.children ==>
         q in g.children && ChildrenMoved(f.children[q], g.children[q], x, value == Some(q),
                                          x in f.parent && f.parent[x] == q)
  }

  ghost predicate ChildrenMoved(before: seq<Id>, after: seq<Id>, x: Id, joins: bool, leaves: bool) {
    if joins then after == before + [x] else if leaves then LostOne(before, after, x) else after == before
  }

  /** On a first adoption everything moved gets the new data model and is counted there; otherwise nothing is. */
  ghost predicate MovedOwners(f: Forest, depth: map<Id, nat>, x: Id, value: Option<Id>, g: Forest)
    requires Linked(f, depth) && x in f.ids && (value.Some? ==> value.value in f.ids)
  {
    if value.Some? && FirstAdoption(f, depth, x, value.value) then
      var t, m := Subtree(f, depth, x), DataModelOf(f, depth, value.value).value;
      && (forall y :: y in g.owner <==> y in f.owner || y in t)
      && (forall y :: y in g.owner ==> g.owner[y] == if y in t then m else f.owner[y])
      && m in f.count && g.count.Keys == f.count.Keys
      && forall k :: k in f.count ==> g.count[k] == if k == m then f.count[k] + |t| else f.count[k]
    else g.owner == f.owner && g.count == f.count
  }

  lemma PlacedReads(limit: nat, f: Forest, depth: map<Id, nat>, x: Id, value: Option<Id>, a: Answers, g: Forest)
    requires Linked(f, depth) && x in f.ids && (value.Some? ==> value.value in f.ids)
    requires Accepts(limit, f, depth, x, value, a) && Placed(f, depth, x, value, g)
    ensures MovedLinks(f, x, value, g) && MovedOwners(f, depth, x, value, g)
  {
    LinkedAt(f, depth, x);
    hide Subtree, DataModelOf, CanAdopt, LostOne, ChildrenMoved, Cut, Attach, Adopt, Erase, FirstAdoption;
    if x in f.parent {
      ListedAt(f, depth, x);
    }
    hide Linked;
    if value.None? {
      CutReads(f, x);
    } else {
      assert !(x in f.parent && f.parent[x] == value.value);
      hide MovedLinks, MovedOwners, Accepts;
      BelowReads(f, depth, x, value.value, g);
    }
  }

  lemma BelowReads(f: Forest, depth: map<Id, nat>, x: Id, p: Id, g: Forest)
    requires Linked(f, depth) && x in f.ids && p in f.ids && Placed(f, depth, x, Some(p), g)
    requires !(x in f.parent && f.parent[x] == p)
    ensures MovedLinks(f, x, Some(p), g) && MovedOwners(f, depth, x, Some(p), g)
  {
    var h := Adopted(f, depth, x, p, Subtree(f, depth, x));
    AdoptedReads(f, depth, x, p);
    if x in f.parent {
      ListedAt(f, depth, x);
    }
    hide Linked, Subtree, DataModelOf, FirstAdoption, Adopted, MovedLinks, MovedOwners, LostOne, ChildrenMoved, Erase;
    CutReads(h, x);
    CutFields(h, x);
    AttachReads(Cut(h, x), x, p);
    JoinReads(h, x, p, Cut(h, x), g);
    SameLinksRead(f, h, x, Some(p), g);
    SameOwnersRead(f, depth, x, Some(p), h, g);
  }

  lemma SameLinksRead(f: Forest, h: Forest, x: Id, value: Option<Id>, g: Forest)
    requires h.parent == f.parent && h.children == f.children && h.ids == f.ids && h.models == f.models
             && h.destroyed == f.destroyed && MovedLinks(h, x, value, g)
    ensures MovedLinks(f, x, value, g)
  {
    hide ChildrenMoved;
  }

  lemma SameOwnersRead(f: Forest, depth: map<Id, nat>, x: Id, value: Option<Id>, h: Forest, g: Forest)
    requires Linked(f, depth) && x in f.ids && (value.Some? ==> value.value in f.ids)
    requires MovedOwners(f, depth, x, value, h) && g.owner == h.owner && g.count == h.count
    ensures MovedOwners(f, depth, x, value, g)
  {
    hide Linked, Subtree, DataModelOf, FirstAdoption;
  }

  lemma ListedAt(f: Forest, depth: map<Id, nat>, x: Id)
    requires Linked(f, depth) && x in f.parent
    ensures f.parent[x] in f.children && x in f.children[f.parent[x]]
  {}

  lemma CutReads(f: Forest, x: Id)
    requires x in f.parent ==> f.parent[x] in f.children && x in f.children[f.parent[x]]
    ensures MovedLinks(f, x, None, Cut(f, x)) && Cut(f, x).owner == f.owner && Cut(f, x).count == f.count
  {
    hide LostOne, Erase;
    if x in f.parent {
      ErasedAt(f.children[f.parent[x]], x);
    }
  }

  lemma AttachReads(f: Forest, x: Id, p: Id)
    requires p in f.children && x !in f.parent
    ensures MovedLinks(f, x, Some(p), Attach(f, x, p))
    ensures Attach(f, x, p).owner == f.owner && Attach(f, x, p).count == f.count
  {
    hide LostOne;
  }

  /** Leaving one list and joining another. */
  lemma JoinReads(f: Forest, x: Id, p: Id, h: Forest, g: Forest)
    requires MovedLinks(f, x, None, h) && MovedLinks(h, x, Some(p), g) && !(x in f.parent && f.parent[x] == p)
    ensures MovedLinks(f, x, Some(p), g)
  {
    hide LostOne;
    forall q | q in f.children ensures q in g.children
      && ChildrenMoved(f.children[q], g.children[q], x, Some(p) == Some(q), x in f.parent && f.parent[x] == q) {
      assert ChildrenMoved(f.children[q], h.children[q], x, None == Some(q), x in f.parent && f.parent[x] == q);
      assert ChildrenMoved(h.children[q], g.children[q], x, Some(p) == Some(q), false);
    }
  }

  lemma AdoptedReads(f: Forest, depth: map<Id, nat>, x: Id, p: Id)
    requires Linked(f, depth) && x in f.ids && p in f.ids
    requires FirstAdoption(f, depth, x, p) ==> DataModelOf(f, depth, p).value in f.count
    ensures var h := Adopted(f, depth, x, p, Subtree(f, depth, x));
            && MovedOwners(f, depth, x, Some(p), h) && h.parent == f.parent && h.children == f.children
            && h.ids == f.ids && h.models == f.models && h.destroyed == f.destroyed
  {
    hide Linked, Subtree, DataModelOf;
  }
}
