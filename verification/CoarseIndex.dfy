/** The index over a manifest's coarse bounds: how it is built, queried and paged through. */
module CoarseIndex {
  import opened Options
  import opened CoarseCells
  import opened DependencyGraph

  const MAX_UNITS: nat := 65_536
  const MAX_MEMBERSHIPS: nat := 1_048_576
  const MAX_INDEX_CELLS: nat := 262_144
  const MAX_VISITS: nat := 262_144
  const MAX_SPACE_BYTES: nat := 64

  datatype Entry = Entry(space: string, bounds: Option<Bounds>)

  type CellMap = map<Cell, seq<nat>>

  /** An index is immutable once built; `epoch` tells two indices apart. */
  datatype Index = Index(cellSize: real, cells: CellMap, memberships: nat, epoch: nat)

  datatype BuildError = CellSize | UnitLimit | InvalidBounds | BeyondRange | EntryCells | MembershipLimit
    | PopulatedLimit

  function At(cells: CellMap, c: Cell): seq<nat> {
    if c in cells then cells[c] else []
  }

  predicate Covers(e: Entry, c: Cell, size: real)
    requires size > 0.0
  {
    e.bounds.Some? && InBox(c, BoxOf(e.space, e.bounds.value, size))
  }

  /** The entries below `n` that cover cell `c`, in ascending order: what the index must hold there. */
  function Listed(entries: seq<Entry>, n: nat, c: Cell, size: real): (r: seq<nat>)
    requires size > 0.0 && n <= |entries|
  {
    if n == 0 then [] else
    Listed(entries, n - 1, c, size) + (if Covers(entries[n - 1], c, size) then [n - 1] else [])
  }

  lemma {:induction false} ListedMembers(entries: seq<Entry>, n: nat, c: Cell, size: real)
    requires size > 0.0 && n <= |entries|
    ensures forall i: nat :: i in Listed(entries, n, c, size) <==> i < n && Covers(entries[i], c, size)
    ensures forall j: nat, k: nat :: j < k < |Listed(entries, n, c, size)| ==>
              Listed(entries, n, c, size)[j] < Listed(entries, n, c, size)[k]
  {
    if n > 0 {
      ListedMembers(entries, n - 1, c, size);
      var prior := Listed(entries, n - 1, c, size);
      assert forall k: nat :: k < |prior| ==> prior[k] in prior;
    }
  }

  ghost predicate Holds(cells: CellMap, entries: seq<Entry>, n: nat, size: real)
    requires size > 0.0 && n <= |entries|
  {
    forall c :: At(cells, c) == Listed(entries, n, c, size)
  }

  ghost predicate Populated(cells: CellMap) {
    forall c :: c in cells ==> cells[c] != []
  }

  /** `after` is `before` with entry `i` added to exactly the cells of `box`. */
  ghost predicate Stamped(before: CellMap, after: CellMap, i: nat, box: Box) {
    forall c :: At(after, c) == At(before, c) + (if InBox(c, box) then [i] else [])
  }

  lemma StampedNothing(cells: CellMap, i: nat, box: Box)
    requires !Proper(box)
    ensures Stamped(cells, cells, i, box)
  {}

  /** A box that is the disjoint union of two others. */
  ghost predicate Splits(box: Box, a: Box, b: Box) {
    forall c :: InBox(c, box) <==> (InBox(c, a) != InBox(c, b))
  }

  lemma StampedTwice(before: CellMap, middle: CellMap, after: CellMap, i: nat, box: Box, a: Box, b: Box)
    requires Stamped(before, middle, i, a) && Stamped(middle, after, i, b)
    requires Splits(box, a, b) && !Both(a, b)
    ensures Stamped(before, after, i, box)
  {
    forall c ensures At(after, c) == At(before, c) + (if InBox(c, box) then [i] else []) {
      assert At(middle, c) == At(before, c) + (if InBox(c, a) then [i] else []);
      assert !(InBox(c, a) && InBox(c, b));
    }
  }

  ghost predicate Both(a: Box, b: Box) {
    exists c :: InBox(c, a) && InBox(c, b)
  }

  /** Everything in `over` was populated before or lies in `box`. */
  ghost predicate Reached(over: set<Cell>, before: CellMap, box: Box) {
    forall c :: c in over ==> c in before || InBox(c, box)
  }

  ghost predicate Overfull(over: set<Cell>, before: CellMap, box: Box) {
    |over| > MAX_INDEX_CELLS && Reached(over, before, box)
  }

  method StampCell(cells: CellMap, i: nat, c: Cell) returns (ok: bool, after: CellMap, ghost over: set<Cell>)
    requires Populated(cells) && |cells| <= MAX_INDEX_CELLS
    ensures Populated(after) && |after| <= MAX_INDEX_CELLS
    ensures ok ==> Stamped(cells, after, i, One(c))
    ensures !ok ==> Overfull(over, cells, One(c))
  {
    if c !in cells && |cells| >= MAX_INDEX_CELLS {
      over := cells.Keys + {c};
      return false, cells, over;
    }
    after := cells[c := At(cells, c) + [i]];
    assert after.Keys == cells.Keys + {c};
    return true, after, {};
  }

  function One(c: Cell): Box {
    Box(c.space, Span(c.x, c.x + 1), Span(c.y, c.y + 1), Span(c.z, c.z + 1))
  }

  method StampColumn(cells: CellMap, i: nat, box: Box) returns (ok: bool, after: CellMap, ghost over: set<Cell>)
    requires Populated(cells) && |cells| <= MAX_INDEX_CELLS && Proper(box)
    requires Length(box.x) == 1 && Length(box.y) == 1
    ensures Populated(after) && |after| <= MAX_INDEX_CELLS
    ensures ok ==> Stamped(cells, after, i, box)
    ensures !ok ==> Overfull(over, cells, box)
  {
    after, over := cells, {};
    hide Stamped, Populated, Overfull;
    StampedNothing(cells, i, box.(z := Span(box.z.first, box.z.first)));
    for z := box.z.first to box.z.end
      invariant Populated(after) && |after| <= MAX_INDEX_CELLS
      invariant Stamped(cells, after, i, box.(z := Span(box.z.first, z)))
    {
      ghost var middle := after;
      ok, after, over := StampCell(after, i, Cell(box.space, box.x.first, box.y.first, z));
      ghost var last := box.(z := Span(z, z + 1));
      assert One(Cell(box.space, box.x.first, box.y.first, z)) == last;
      if !ok {
        OverfullStays(over, cells, middle, i, box.(z := Span(box.z.first, z)), last, box);
        return;
      }
      StampedTwice(cells, middle, after, i, box.(z := Span(box.z.first, z + 1)), box.(z := Span(box.z.first, z)), last);
    }
    ok := true;
  }

  lemma OverfullStays(over: set<Cell>, before: CellMap, middle: CellMap, i: nat, done: Box, last: Box, box: Box)
    requires Overfull(over, middle, last) && Stamped(before, middle, i, done) && Populated(middle)
    requires forall c :: InBox(c, done) || InBox(c, last) ==> InBox(c, box)
    ensures Overfull(over, before, box)
  {
    forall c | c in over ensures c in before || InBox(c, box) {
      assert c in middle ==> At(middle, c) != [];
    }
  }

  method StampSlice(cells: CellMap, i: nat, box: Box) returns (ok: bool, after: CellMap, ghost over: set<Cell>)
    requires Populated(cells) && |cells| <= MAX_INDEX_CELLS && Proper(box) && Length(box.x) == 1
    ensures Populated(after) && |after| <= MAX_INDEX_CELLS
    ensures ok ==> Stamped(cells, after, i, box)
    ensures !ok ==> Overfull(over, cells, box)
  {
    after, over := cells, {};
    hide Stamped, Populated, Overfull;
    StampedNothing(cells, i, box.(y := Span(box.y.first, box.y.first)));
    for y := box.y.first to box.y.end
      invariant Populated(after) && |after| <= MAX_INDEX_CELLS
      invariant Stamped(cells, after, i, box.(y := Span(box.y.first, y)))
    {
      ghost var middle := after;
      var last := box.(y := Span(y, y + 1));
      ok, after, over := StampColumn(after, i, last);
      if !ok {
        OverfullStays(over, cells, middle, i, box.(y := Span(box.y.first, y)), last, box);
        return;
      }
      StampedTwice(cells, middle, after, i, box.(y := Span(box.y.first, y + 1)), box.(y := Span(box.y.first, y)), last);
    }
    ok := true;
  }

  /** Adds entry `i` to every cell of its box, unless that would populate too many cells. */
  method StampBox(cells: CellMap, i: nat, box: Box) returns (ok: bool, after: CellMap, ghost over: set<Cell>)
    requires Populated(cells) && |cells| <= MAX_INDEX_CELLS && Proper(box)
    ensures Populated(after) && |after| <= MAX_INDEX_CELLS
    ensures ok ==> Stamped(cells, after, i, box)
    ensures !ok ==> Overfull(over, cells, box)
  {
    after, over := cells, {};
    hide Stamped, Populated, Overfull;
    StampedNothing(cells, i, box.(x := Span(box.x.first, box.x.first)));
    for x := box.x.first to box.x.end
      invariant Populated(after) && |after| <= MAX_INDEX_CELLS
      invariant Stamped(cells, after, i, box.(x := Span(box.x.first, x)))
    {
      ghost var middle := after;
      var last := box.(x := Span(x, x + 1));
      ok, after, over := StampSlice(after, i, last);
      if !ok {
        OverfullStays(over, cells, middle, i, box.(x := Span(box.x.first, x)), last, box);
        return;
      }
      StampedTwice(cells, middle, after, i, box.(x := Span(box.x.first, x + 1)), box.(x := Span(box.x.first, x)), last);
    }
    ok := true;
  }

  predicate Indexable(e: Entry, size: real)
    requires size > 0.0
  {
    e.bounds.Some? ==> BoundsValid(e.bounds.value) && FitsBox(BoxOf(e.space, e.bounds.value, size))
  }

  predicate AllIndexable(entries: seq<Entry>, n: nat, size: real)
    requires size > 0.0 && n <= |entries|
  {
    forall i: nat :: i < n ==> Indexable(entries[i], size)
  }

  /** The cells that the entries below `n` occupy, counted once for each entry. */
  function Memberships(entries: seq<Entry>, n: nat, size: real): nat
    requires size > 0.0 && n <= |entries| && AllIndexable(entries, n, size)
  {
    if n == 0 then 0 else Memberships(entries, n - 1, size) + Weight(entries[n - 1], size)
  }

  function Weight(e: Entry, size: real): nat
    requires size > 0.0 && Indexable(e, size)
  {
    if e.bounds.None? then 0 else Volume(BoxOf(e.space, e.bounds.value, size))
  }

  lemma {:induction false} MembershipsGrow(entries: seq<Entry>, m: nat, n: nat, size: real)
    requires size > 0.0 && m <= n <= |entries| && AllIndexable(entries, n, size)
    ensures Memberships(entries, m, size) <= Memberships(entries, n, size)
  {
    if m < n {
      MembershipsGrow(entries, m, n - 1, size);
    }
  }

  ghost predicate Occupied(over: set<Cell>, entries: seq<Entry>, size: real)
    requires size > 0.0
  {
    forall c :: c in over ==> exists i: nat :: i < |entries| && Covers(entries[i], c, size)
  }

  /** Exactly the entry lists that can be indexed. */
  ghost predicate Buildable(entries: seq<Entry>, size: real) {
    && size > 0.0 && |entries| <= MAX_UNITS && AllIndexable(entries, |entries|, size)
    && Memberships(entries, |entries|, size) <= MAX_MEMBERSHIPS
    && (forall over: set<Cell> :: Occupied(over, entries, size) ==> |over| <= MAX_INDEX_CELLS)
  }

  /** What each refusal of entry `i` says about it and the entries before it. */
  ghost predicate Refused(entries: seq<Entry>, i: nat, size: real, error: BuildError, over: set<Cell>)
    requires size > 0.0 && i < |entries| && AllIndexable(entries, i, size)
  {
    var e := entries[i];
    && e.bounds.Some?
    && match error {
       case InvalidBounds => !BoundsValid(e.bounds.value)
       case BeyondRange => BoundsValid(e.bounds.value) && Judge(e.bounds.value, size, 0, 1) == OutOfRange
       case EntryCells => BoundsValid(e.bounds.value) && Judge(e.bounds.value, size, 0, 1) == TooMany
       case MembershipLimit => Indexable(e, size) && Memberships(entries, i, size) + Weight(e, size) > MAX_MEMBERSHIPS
       case PopulatedLimit => |over| > MAX_INDEX_CELLS && Occupied(over, entries, size)
       case _ => false
       }
  }

  lemma RefusedIsNotBuildable(entries: seq<Entry>, i: nat, size: real, error: BuildError, over: set<Cell>)
    requires size > 0.0 && i < |entries| && AllIndexable(entries, i, size) && Refused(entries, i, size, error, over)
    ensures !Buildable(entries, size)
  {
    var e := entries[i];
    if Buildable(entries, size) {
      assert Indexable(e, size);
      JudgeFits(e.space, e.bounds.value, size);
      if error == MembershipLimit {
        MembershipsGrow(entries, i + 1, |entries|, size);
      }
    }
  }

  ghost predicate Built(index: Index, entries: seq<Entry>, n: nat)
    requires n <= |entries|
  {
    && index.cellSize > 0.0 && AllIndexable(entries, n, index.cellSize)
    && Holds(index.cells, entries, n, index.cellSize) && Populated(index.cells) && |index.cells| <= MAX_INDEX_CELLS
    && index.memberships == Memberships(entries, n, index.cellSize) <= MAX_MEMBERSHIPS
  }

  datatype Step = Added(index: Index) | Failed(error: BuildError)

  /** Adds one entry, or says why it cannot be. */
  method AddEntry(index: Index, entries: seq<Entry>, i: nat) returns (r: Step, ghost over: set<Cell>)
    requires i < |entries| && Built(index, entries, i)
    ensures r.Added? ==> Built(r.index, entries, i + 1) && r.index.cellSize == index.cellSize
                         && r.index.epoch == index.epoch
    ensures r.Failed? ==> Refused(entries, i, index.cellSize, r.error, over)
  {
    over := {};
    var e := entries[i];
    if e.bounds.None? {
      AddedNothing(index, entries, i);
      return Added(index), over;
    }
    var size := index.cellSize;
    if !BoundsValid(e.bounds.value) {
      return Failed(InvalidBounds), over;
    }
    var verdict, first, extents, total := Measure(e.bounds.value, size);
    if verdict == OutOfRange {
      return Failed(BeyondRange), over;
    }
    if verdict == TooMany {
      return Failed(EntryCells), over;
    }
    JudgeFits(e.space, e.bounds.value, size);
    MeasuredBox(e.space, e.bounds.value, size, first, extents);
    if total > MAX_MEMBERSHIPS - index.memberships {
      return Failed(MembershipLimit), over;
    }
    r, over := AddBox(index, entries, i);
  }

  lemma AddedNothing(index: Index, entries: seq<Entry>, i: nat)
    requires i < |entries| && Built(index, entries, i) && entries[i].bounds.None?
    ensures Built(index, entries, i + 1)
  {
    hide InBox;
    forall c ensures At(index.cells, c) == Listed(entries, i + 1, c, index.cellSize) {
      assert At(index.cells, c) == Listed(entries, i, c, index.cellSize);
    }
  }

  method AddBox(index: Index, entries: seq<Entry>, i: nat) returns (r: Step, ghost over: set<Cell>)
    requires i < |entries| && Built(index, entries, i)
    requires entries[i].bounds.Some? && Indexable(entries[i], index.cellSize)
    requires index.memberships + Weight(entries[i], index.cellSize) <= MAX_MEMBERSHIPS
    ensures r.Added? ==> Built(r.index, entries, i + 1) && r.index.cellSize == index.cellSize
                         && r.index.epoch == index.epoch
    ensures r.Failed? ==> Refused(entries, i, index.cellSize, r.error, over)
  {
    hide Holds, Populated, Stamped, Overfull, FitsBox, AllIndexable, Memberships, InBox, Occupied, Covers;
    var e := entries[i];
    var box := BoxOf(e.space, e.bounds.value, index.cellSize);
    BoxIsProper(e.space, e.bounds.value, index.cellSize);
    var ok, after;
    ok, after, over := StampBox(index.cells, i, box);
    if !ok {
      OverfullOccupies(over, index.cells, entries, i, index.cellSize);
      return Failed(PopulatedLimit), over;
    }
    StampedHolds(index.cells, after, entries, i, index.cellSize);
    IndexableMore(entries, i, index.cellSize);
    // One membership for each cell stamped, counted together: nothing reads the counter in between.
    return Added(Index(index.cellSize, after, index.memberships + Volume(box), index.epoch)), over;
  }

  lemma IndexableMore(entries: seq<Entry>, i: nat, size: real)
    requires size > 0.0 && i < |entries| && AllIndexable(entries, i, size) && Indexable(entries[i], size)
    ensures AllIndexable(entries, i + 1, size)
    ensures Memberships(entries, i + 1, size) == Memberships(entries, i, size) + Weight(entries[i], size)
  {}

  lemma StampedHolds(before: CellMap, after: CellMap, entries: seq<Entry>, i: nat, size: real)
    requires size > 0.0 && i < |entries| && entries[i].bounds.Some? && Holds(before, entries, i, size)
    requires Stamped(before, after, i, BoxOf(entries[i].space, entries[i].bounds.value, size))
    ensures Holds(after, entries, i + 1, size)
  {
    hide InBox;
    forall c ensures At(after, c) == Listed(entries, i + 1, c, size) {
      assert At(before, c) == Listed(entries, i, c, size);
    }
  }

  lemma OverfullOccupies(over: set<Cell>, cells: CellMap, entries: seq<Entry>, i: nat, size: real)
    requires size > 0.0 && i < |entries| && entries[i].bounds.Some? && Holds(cells, entries, i, size)
             && Populated(cells)
    requires Overfull(over, cells, BoxOf(entries[i].space, entries[i].bounds.value, size))
    ensures |over| > MAX_INDEX_CELLS && Occupied(over, entries, size)
  {
    hide InBox;
    forall c | c in over ensures exists k: nat :: k < |entries| && Covers(entries[k], c, size) {
      if c in cells {
        ListedMembers(entries, i, c, size);
        assert At(cells, c) == Listed(entries, i, c, size);
        assert At(cells, c)[0] in Listed(entries, i, c, size);
      } else {
        assert Covers(entries[i], c, size);
      }
    }
  }

  datatype BuildResult = Indexed(index: Index) | Error(error: BuildError)

  /** Builds the index; it succeeds exactly on the buildable entry lists, and then holds every entry where it should. */
  method Build(entries: seq<Entry>, size: real, epoch: nat) returns (r: BuildResult)
    ensures r.Indexed? <==> Buildable(entries, size)
    ensures r.Indexed? ==> Built(r.index, entries, |entries|) && r.index.cellSize == size && r.index.epoch == epoch
    ensures r.Error? ==>
      match r.error {
        case CellSize => size <= 0.0
        case UnitLimit => size > 0.0 && |entries| > MAX_UNITS
        case _ => size > 0.0 && exists i: nat, over: set<Cell> ::
            i < |entries| && AllIndexable(entries, i, size) && Refused(entries, i, size, r.error, over)
      }
  {
    if size <= 0.0 {
      return Error(CellSize);
    }
    if |entries| > MAX_UNITS {
      return Error(UnitLimit);
    }
    var index := Index(size, map[], 0, epoch);
    assert Holds(index.cells, entries, 0, size);
    hide Refused, Buildable, Holds;
    for i: nat := 0 to |entries|
      invariant Built(index, entries, i) && index.cellSize == size && index.epoch == epoch
    {
      var step, over := AddEntry(index, entries, i);
      if step.Failed? {
        RefusedIsNotBuildable(entries, i, size, step.error, over);
        RefusedKind(entries, i, size, step.error, over);
        return Error(step.error);
      }
      index := step.index;
    }
    BuiltIsBuildable(index, entries);
    return Indexed(index);
  }

  lemma RefusedKind(entries: seq<Entry>, i: nat, size: real, error: BuildError, over: set<Cell>)
    requires size > 0.0 && i < |entries| && AllIndexable(entries, i, size) && Refused(entries, i, size, error, over)
    ensures error != CellSize && error != UnitLimit
  {}

  lemma BuiltIsBuildable(index: Index, entries: seq<Entry>)
    requires Built(index, entries, |entries|) && |entries| <= MAX_UNITS
    ensures Buildable(entries, index.cellSize)
  {
    var size := index.cellSize;
    forall over: set<Cell> | Occupied(over, entries, size) ensures |over| <= MAX_INDEX_CELLS {
      OccupiedAreKeys(index, entries, over);
      SubsetSize(over, index.cells.Keys);
    }
  }

  lemma OccupiedAreKeys(index: Index, entries: seq<Entry>, over: set<Cell>)
    requires Built(index, entries, |entries|) && Occupied(over, entries, index.cellSize)
    ensures over <= index.cells.Keys
  {
    hide Covers, Populated;
    forall c | c in over ensures c in index.cells {
      var i: nat :| i < |entries| && Covers(entries[i], c, index.cellSize);
      ListedMembers(entries, |entries|, c, index.cellSize);
      assert At(index.cells, c) == Listed(entries, |entries|, c, index.cellSize);
    }
  }

  /** Some cell of the box lists entry `i`. */
  ghost predicate Found(cells: CellMap, box: Box, i: nat) {
    exists c :: InBox(c, box) && i in At(cells, c)
  }

  predicate Overlaps(e: Entry, box: Box, size: real)
    requires size > 0.0
  {
    e.bounds.Some? && Overlap(BoxOf(e.space, e.bounds.value, size), box)
  }

  /** The cells of a box name exactly the entries whose own boxes overlap it. */
  lemma FoundIsOverlap(index: Index, entries: seq<Entry>, box: Box, i: nat)
    requires Built(index, entries, |entries|) && Proper(box)
    ensures Found(index.cells, box, i) <==> i < |entries| && Overlaps(entries[i], box, index.cellSize)
  {
    var size := index.cellSize;
    hide InBox, Overlap, Populated, Proper;
    if c :| InBox(c, box) && i in At(index.cells, c) {
      ListedAt(index, entries, c, i);
      var e := entries[i];
      assert Indexable(e, size);
      OverlapIsSharedCell(BoxOf(e.space, e.bounds.value, size), box);
    }
    if i < |entries| && Overlaps(entries[i], box, size) {
      var e := entries[i];
      assert Indexable(e, size);
      OverlapIsSharedCell(BoxOf(e.space, e.bounds.value, size), box);
      var c :| InBox(c, BoxOf(e.space, e.bounds.value, size)) && InBox(c, box);
      ListedAt(index, entries, c, i);
    }
  }

  lemma ListedAt(index: Index, entries: seq<Entry>, c: Cell, i: nat)
    requires Built(index, entries, |entries|)
    ensures i in At(index.cells, c) <==> i < |entries| && Covers(entries[i], c, index.cellSize)
  {
    hide Covers, Populated;
    ListedMembers(entries, |entries|, c, index.cellSize);
    assert At(index.cells, c) == Listed(entries, |entries|, c, index.cellSize);
  }
}
