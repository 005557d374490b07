/** A run of accepted calls after which a data model's count is wrong, although all data models are roots again. */
module ForestWitness {
  import opened DependencyGraph
  import opened Options
  import opened ForestState
  import opened ForestMoves
  import opened ForestDestruction

  // The data model 0, and the instances 1 and 2. At first nothing is related.

  ghost function Forest3(parent: map<Id, Id>, children: map<Id, seq<Id>>, owner: map<Id, Id>, count: nat): Forest {
    Forest({0, 1, 2}, {0}, parent, children, owner, {}, map[0 := count])
  }

  ghost function Fresh(): Forest { Forest3(map[], map[0 := [], 1 := [], 2 := []], map[], 1) }
  ghost function Placed1(): Forest { Forest3(map[1 := 0], map[0 := [1], 1 := [], 2 := []], map[1 := 0], 2) }
  ghost function Owned1(): Forest { Forest3(map[], map[0 := [], 1 := [], 2 := []], map[1 := 0], 2) }
  ghost function Nested(): Forest { Forest3(map[0 := 1], map[0 := [], 1 := [0], 2 := []], map[1 := 0], 2) }
  ghost function Hidden(): Forest { Forest3(map[0 := 1, 2 := 0], map[0 := [2], 1 := [0], 2 := []], map[1 := 0], 2) }
  ghost function Stray(): Forest { Forest3(map[2 := 0], map[0 := [2], 1 := [], 2 := []], map[1 := 0], 2) }

  ghost function Flat(): map<Id, nat> { map[0 := 0, 1 := 0, 2 := 0] }
  ghost function Deep1(): map<Id, nat> { map[0 := 0, 1 := 1, 2 := 0] }
  ghost function Deep(): map<Id, nat> { map[0 := 1, 1 := 0, 2 := 2] }

  lemma SubtreeOf(f: Forest, depth: map<Id, nat>, x: Id, t: set<Id>)
    requires Linked(f, depth) && x in f.ids && IsSubtree(f, x, t)
    ensures Subtree(f, depth, x) == t
  {
    SubtreeIs(f, depth, x);
    SubtreeUnique(f, depth, x, t, Subtree(f, depth, x));
  }

  ghost predicate Step(f: Forest, depth: map<Id, nat>, x: Id, value: Option<Id>, g: Forest) {
    && Linked(f, depth) && x in f.ids && (value.Some? ==> value.value in f.ids)
    && Accepts(3, f, depth, x, value, Answers(true, true)) && Placed(f, depth, x, value, g)
  }

  lemma FreshIsTidy()
    ensures Sound(3, Fresh(), Flat(), {}) && Tidy(3, Fresh())
  {
    assert OwnedBy(Fresh(), 0) == {};
    assert forall x :: x in Fresh().children ==> Fresh().children[x] == [];
  }

  /** One instance with no other children, moved alone. */
  lemma AloneStep(f: Forest, depth: map<Id, nat>, x: Id, p: Id, g: Forest)
    requires Linked(f, depth) && x in f.ids && p in f.ids && x in f.children && f.children[x] == [] && p in f.children
             && x != p
    requires x !in f.parent && x !in f.destroyed && p !in f.destroyed
    requires DataModelOf(f, depth, x).Some? ==> DataModelOf(f, depth, p) == DataModelOf(f, depth, x)
    requires FirstAdoption(f, depth, x, p) ==>
             DataModelOf(f, depth, p).value in f.count && f.count[DataModelOf(f, depth, p).value] < 3
    requires g == (if FirstAdoption(f, depth, x, p) then Adopt(f, {x}, DataModelOf(f, depth, p).value) else f)
                  .(parent := f.parent[x := p], children := f.children[p := f.children[p] + [x]])
    ensures Step(f, depth, x, Some(p), g)
  {
    assert IsSubtree(f, x, {x});
    SubtreeOf(f, depth, x, {x});
    hide Linked, Subtree, DataModelOf, IsSubtree, Accepts;
    AloneAccepted(f, depth, x, p);
  }

  lemma AloneAccepted(f: Forest, depth: map<Id, nat>, x: Id, p: Id)
    requires Linked(f, depth) && x in f.ids && p in f.ids && x != p && Subtree(f, depth, x) == {x}
    requires x !in f.parent && x !in f.destroyed && p !in f.destroyed
    requires DataModelOf(f, depth, x).Some? ==> DataModelOf(f, depth, p) == DataModelOf(f, depth, x)
    requires FirstAdoption(f, depth, x, p) ==>
             DataModelOf(f, depth, p).value in f.count && f.count[DataModelOf(f, depth, p).value] < 3
    ensures Accepts(3, f, depth, x, Some(p), Answers(true, true))
  {
    hide Linked, Subtree, DataModelOf;
  }

  lemma Adopt1()
    ensures Step(Fresh(), Flat(), 1, Some(0), Placed1())
  {
    var f, d := Fresh(), Flat();
    FreshIsTidy();
    assert DataModelOf(f, d, 1) == None && DataModelOf(f, d, 0) == Some(0);
    hide Linked, DataModelOf, Step;
    assert f.children[0] + [1] == [1];
    AloneStep(f, d, 1, 0, Placed1());
  }

  lemma Placed1Linked()
    ensures Linked(Placed1(), Deep1()) && IsSubtree(Placed1(), 1, {1})
  {
    Placed1Down();
    hide DownLinks, TidyLists;
  }

  lemma Placed1Down()
    ensures DownLinks(Placed1()) && TidyLists(Placed1())
  {
    var f := Placed1();
    assert f.children[0] == [1] && f.children[1] == [] && f.children[2] == [];
  }

  lemma Detach1()
    ensures Step(Placed1(), Deep1(), 1, None, Owned1())
  {
    var f, d := Placed1(), Deep1();
    Placed1Linked();
    hide Linked, IsSubtree;
    SubtreeOf(f, d, 1, {1});
    hide Subtree;
    assert Erase([1], 1) == [];
    hide Erase;
    assert f.parent - {1} == map[];
  }

  lemma OwnedLinked()
    ensures Linked(Owned1(), Flat())
  {
    assert forall x :: x in Owned1().children ==> Owned1().children[x] == [];
  }

  /** The data model moves below the detached instance it owns. */
  lemma Nest0()
    ensures Step(Owned1(), Flat(), 0, Some(1), Nested())
  {
    var f, d := Owned1(), Flat();
    OwnedLinked();
    assert DataModelOf(f, d, 0) == Some(0) && DataModelOf(f, d, 1) == Some(0);
    hide Linked, DataModelOf, Step;
    assert f.children[1] + [0] == [0];
    AloneStep(f, d, 0, 1, Nested());
  }

  lemma NestedLinked()
    ensures Linked(Nested(), Deep())
  {
    NestedDown();
    hide DownLinks, TidyLists;
  }

  lemma NestedDown()
    ensures DownLinks(Nested()) && TidyLists(Nested())
  {
    var f := Nested();
    assert f.children[0] == [] && f.children[1] == [0] && f.children[2] == [];
  }

  lemma NestedAnswers()
    ensures Linked(Nested(), Deep())
    ensures DataModelOf(Nested(), Deep(), 2) == None && DataModelOf(Nested(), Deep(), 0) == None
  {
    NestedLinked();
    var f, d := Nested(), Deep();
    hide Linked;
    assert Root(f, d, 1) == 1;
    assert Root(f, d, 0) == Root(f, d, 1);
  }

  /** From one owner throughout to a data model that its own parent's data model is not. */
  lemma NestingSeparates()
    ensures Linked(Owned1(), Flat()) && OneOwner(Owned1(), Flat())
    ensures Linked(Nested(), Deep()) && !OneOwner(Nested(), Deep())
  {
    OwnedLinked();
    NestedAnswers();
    hide Linked;
    assert !SameModel(Nested(), Deep(), 0, 1);
  }

  /** Another instance moves below the nested data model, which answers to nobody: it is not adopted. */
  lemma Hide2()
    ensures Step(Nested(), Deep(), 2, Some(0), Hidden())
  {
    var f, d := Nested(), Deep();
    NestedAnswers();
    hide Linked, DataModelOf, Step;
    assert f.children[0] + [2] == [2];
    assert f.parent[2 := 0] == Hidden().parent;
    AloneStep(f, d, 2, 0, Hidden());
  }

  lemma HiddenUp()
    ensures UpLinks(Hidden()) && Deepening(Hidden(), Deep())
  {}

  lemma HiddenDown()
    ensures DownLinks(Hidden()) && TidyLists(Hidden())
  {
    var f := Hidden();
    assert f.children[0] == [2] && f.children[1] == [0] && f.children[2] == [];
  }

  lemma HiddenSubtree()
    ensures IsSubtree(Hidden(), 0, {0, 2})
  {
    var f := Hidden();
    assert f.children[0] == [2] && f.children[2] == [];
  }

  lemma HiddenLinked()
    ensures Linked(Hidden(), Deep())
  {
    HiddenUp();
    HiddenDown();
    hide UpLinks, DownLinks, TidyLists, Deepening;
  }

  /** The data model becomes a root again. */
  lemma Free0()
    ensures Step(Hidden(), Deep(), 0, None, Stray())
  {
    var f, d := Hidden(), Deep();
    HiddenLinked();
    HiddenSubtree();
    hide Linked, IsSubtree;
    SubtreeOf(f, d, 0, {0, 2});
    hide Subtree;
    assert Erase([0], 0) == [];
    hide Erase;
    assert f.parent - {0} == map[2 := 0];
    assert f.children[1 := []] == Stray().children;
  }

  lemma StrayLinked()
    ensures Linked(Stray(), Deep()) && IsSubtree(Stray(), 2, {2})
  {
    StrayDown();
    hide DownLinks, TidyLists;
  }

  lemma StrayDown()
    ensures DownLinks(Stray()) && TidyLists(Stray())
  {
    var f := Stray();
    assert f.children[0] == [2] && f.children[1] == [] && f.children[2] == [];
  }

  lemma StrayAnswers()
    ensures Linked(Stray(), Deep()) && IsSubtree(Stray(), 2, {2})
    ensures DataModelOf(Stray(), Deep(), 2) == Some(0) && 2 !in Stray().owner
    ensures Strays(Stray(), Deep(), {2}, 0) == {2} && OwnedBy(Stray(), 0) == {1}
  {
    var f, d := Stray(), Deep();
    StrayLinked();
    hide Linked, IsSubtree;
    assert Root(f, d, 0) == 0;
    assert Root(f, d, 2) == 0;
  }

  /** All data models are roots and all counts exact, yet destroying the stray instance spoils the count. */
  lemma CountIsLost()
    ensures Linked(Stray(), Deep()) && TopModels(Stray()) && Counted(3, Stray()) && IsSubtree(Stray(), 2, {2})
    ensures !Counted(3, Prune(Stray(), Homes(Stray(), Deep()), {2}))
    ensures TopModels(Prune(Stray(), Homes(Stray(), Deep()), {2}))
  {
    StrayAnswers();
    hide Linked, Strays, OwnedBy, IsSubtree, PrunedChildren, PrunedOwner, PrunedCount, Homes;
    assert !KeepsCounts(Stray(), Deep(), {2}) by {
      assert 0 in Stray().models;
      assert 1 in OwnedBy(Stray(), 0);
    }
    hide KeepsCounts;
    PrunedCounted(3, Stray(), Deep(), {2});
  }

  /** The whole run: five accepted moves from three new instances, then one destruction. */
  lemma CountLostRun()
    ensures Sound(3, Fresh(), Flat(), {}) && Tidy(3, Fresh())
    ensures Step(Fresh(), Flat(), 1, Some(0), Placed1()) && Step(Placed1(), Deep1(), 1, None, Owned1())
    ensures Step(Owned1(), Flat(), 0, Some(1), Nested()) && Step(Nested(), Deep(), 2, Some(0), Hidden())
    ensures Step(Hidden(), Deep(), 0, None, Stray()) && Linked(Stray(), Deep()) && IsSubtree(Stray(), 2, {2})
    ensures !Counted(3, Prune(Stray(), Homes(Stray(), Deep()), {2}))
  {
    hide *;
    FreshIsTidy();
    Adopt1();
    Detach1();
    Nest0();
    Hide2();
    Free0();
    CountIsLost();
  }
}
