/** Queries over a built index: one bounded answer, or pages resumed by a cursor. */
module CoarseQuery {
  import opened Options
  import opened Arithmetic
  import opened CoarseCells
  import opened CoarseIndex
  import opened Sorting
  import opened DependencyGraph

  datatype Limits = Limits(cells: nat, visits: nat, results: nat)

  datatype Cursor = Cursor(epoch: nat, space: string, bounds: Bounds, cell: nat, membership: nat)

  datatype Status = Complete | More | InvalidInput | InvalidCursor | QueryCellLimit

  datatype Page = Page(status: Status, entries: seq<nat>, next: Option<Cursor>, cellsVisited: nat, visits: nat)

  predicate LegalLimits(l: Limits) {
    0 < l.cells <= MAX_CELLS && 0 < l.visits <= MAX_VISITS && 0 < l.results <= MAX_UNITS
  }

  predicate LegalQuery(space: string, bounds: Bounds) {
    space != "" && |space| <= MAX_SPACE_BYTES && BoundsValid(bounds)
  }

  /** What the first `n` cells of a box list, one cell after another. */
  function Listing(cells: CellMap, box: Box, n: nat): seq<nat>
    requires Proper(box)
  {
    if n == 0 then [] else Listing(cells, box, n - 1) + At(cells, CellAt(box, n - 1))
  }

  /** The one sequence that all pages of a query are cut from. */
  function Full(cells: CellMap, box: Box): seq<nat>
    requires Proper(box)
  {
    Listing(cells, box, Volume(box))
  }

  lemma {:induction false} ListingPrefix(cells: CellMap, box: Box, m: nat, n: nat)
    requires Proper(box) && m <= n
    ensures |Listing(cells, box, m)| <= |Listing(cells, box, n)|
    ensures Listing(cells, box, n)[..|Listing(cells, box, m)|] == Listing(cells, box, m)
  {
    hide CellAt, At;
    if m < n {
      ListingPrefix(cells, box, m, n - 1);
    } else {
      var all := Listing(cells, box, n);
      assert all[..|all|] == all;
    }
  }

  /** Where a cell's members stand in the full sequence. */
  lemma CellInFull(cells: CellMap, box: Box, k: nat)
    requires Proper(box) && k < Volume(box)
    ensures var before, here, full := Listing(cells, box, k), At(cells, CellAt(box, k)), Full(cells, box);
            |before| + |here| <= |full| && full[|before|..|before| + |here|] == here && full[..|before|] == before
  {
    ListingPrefix(cells, box, k + 1, Volume(box));
    ListingPrefix(cells, box, k, Volume(box));
    var before, here, full := Listing(cells, box, k), At(cells, CellAt(box, k)), Full(cells, box);
    assert Listing(cells, box, k + 1) == before + here;
    hide *;
    PrefixParts(full, before, here);
  }

  lemma PrefixParts(full: seq<nat>, before: seq<nat>, here: seq<nat>)
    requires |before + here| <= |full| && full[..|before + here|] == before + here
    ensures full[|before|..|before| + |here|] == here && full[..|before|] == before
  {
    var front := full[..|before + here|];
    assert full[|before|..|before| + |here|] == front[|before|..];
    assert full[..|before|] == front[..|before|];
  }

  lemma {:induction false} ListingMembers(cells: CellMap, box: Box, n: nat, i: nat)
    requires Proper(box)
    ensures i in Listing(cells, box, n) <==> exists k: nat :: k < n && i in At(cells, CellAt(box, k))
  {
    hide CellAt, At;
    if n > 0 {
      ListingMembers(cells, box, n - 1, i);
      if k: nat :| k < n && i in At(cells, CellAt(box, k)) {
        assert k < n - 1 || k == n - 1;
      }
    }
  }

  /** The full sequence names exactly what the cells of the box list. */
  lemma FullIsFound(cells: CellMap, box: Box, i: nat)
    requires Proper(box)
    ensures i in Full(cells, box) <==> Found(cells, box, i)
  {
    hide CellAt, At, InBox, IndexOf, Volume;
    ListingMembers(cells, box, Volume(box), i);
    if k: nat :| k < Volume(box) && i in At(cells, CellAt(box, k)) {
      VisitIsInBox(box, k);
    }
    if c :| InBox(c, box) && i in At(cells, c) {
      CellIsVisited(box, c);
      var k: nat := IndexOf(box, c);
      assert i in At(cells, CellAt(box, k));
    }
  }

  /** A cell and a place within it that a query may resume from. */
  predicate Spot(cells: CellMap, box: Box, cell: nat, membership: nat)
    requires Proper(box)
  {
    cell < Volume(box) && membership <= |At(cells, CellAt(box, cell))|
  }

  /** How much of the full sequence lies before a spot. */
  function Place(cells: CellMap, box: Box, cell: nat, membership: nat): nat
    requires Proper(box)
  {
    |Listing(cells, box, cell)| + membership
  }

  predicate Resumes(index: Index, space: string, bounds: Bounds, cursor: Option<Cursor>)
    requires index.cellSize > 0.0 && Proper(BoxOf(space, bounds, index.cellSize))
  {
    cursor.Some? ==>
      && cursor.value.epoch == index.epoch && cursor.value.space == space && cursor.value.bounds == bounds
      && Spot(index.cells, BoxOf(space, bounds, index.cellSize), cursor.value.cell, cursor.value.membership)
  }

  function StartCell(cursor: Option<Cursor>): nat {
    if cursor.Some? then cursor.value.cell else 0
  }

  function StartMembership(cursor: Option<Cursor>): nat {
    if cursor.Some? then cursor.value.membership else 0
  }

  lemma StartIsSpot(index: Index, space: string, bounds: Bounds, cursor: Option<Cursor>)
    requires index.cellSize > 0.0 && Proper(BoxOf(space, bounds, index.cellSize))
             && Resumes(index, space, bounds, cursor)
    ensures Spot(index.cells, BoxOf(space, bounds, index.cellSize), StartCell(cursor), StartMembership(cursor))
  {}

  /** The page is the next piece of the full sequence, within its limits; its cursor stands right behind the piece.
      It counts the cells it entered and the memberships it read, and it ends early only where a limit is met. */
  ghost predicate Cut(cells: CellMap, box: Box, cell: nat, membership: nat, limits: Limits, page: Page, nextCell: nat,
                      nextMembership: nat)
    requires Proper(box)
  {
    var full, from := Full(cells, box), Place(cells, box, cell, membership);
    && from + |page.entries| <= |full| && page.entries == full[from..from + |page.entries|]
    && |page.entries| == page.visits <= limits.visits && |page.entries| <= limits.results
       && page.cellsVisited <= limits.cells
    && (page.status == Complete ==> from + |page.entries| == |full|)
    && (page.status == More ==>
          && Spot(cells, box, nextCell, nextMembership)
             && Place(cells, box, nextCell, nextMembership) == from + |page.entries|
          && cell <= nextCell && (cell < nextCell || page.entries != [])
          && page.cellsVisited == nextCell - cell + (if nextMembership > 0 then 1 else 0)
          && (page.visits == limits.visits || |page.entries| == limits.results
              || (nextMembership == 0 && page.cellsVisited == limits.cells)))
    && (page.status == Complete ==> page.cellsVisited == Volume(box) - cell)
  }

  method TakeMembers(members: seq<nat>, start: nat, entries: seq<nat>, limits: Limits)
    returns (all: seq<nat>, stop: nat)
    requires start <= |members| && |entries| < limits.visits && |entries| < limits.results
    ensures start <= stop <= |members| && all == entries + members[start..stop]
    ensures |all| <= limits.visits && |all| <= limits.results
    ensures stop < |members| ==> stop > start && (|all| == limits.visits || |all| == limits.results)
  {
    all, stop := entries, start;
    var visits := |entries|;
    while stop < |members| && visits < limits.visits && |all| < limits.results
      invariant start <= stop <= |members| && all == entries + members[start..stop]
      invariant visits == |all| <= limits.visits && |all| <= limits.results
      invariant stop == start ==> all == entries
    {
      all, stop, visits := all + [members[stop]], stop + 1, visits + 1;
    }
  }

  /** The state of a page in progress, as a piece of the full sequence. */
  ghost predicate Piece(cells: CellMap, box: Box, from: nat, entries: seq<nat>, cell: nat, membership: nat)
    requires Proper(box)
  {
    && (Spot(cells, box, cell, membership) || (cell == Volume(box) && membership == 0))
    && from <= Place(cells, box, cell, membership) <= |Full(cells, box)|
    && entries == Full(cells, box)[from..Place(cells, box, cell, membership)]
  }

  lemma PieceStarts(cells: CellMap, box: Box, cell: nat, membership: nat)
    requires Proper(box) && Spot(cells, box, cell, membership)
    ensures Piece(cells, box, Place(cells, box, cell, membership), [], cell, membership)
  {
    hide CellAt, At;
    CellInFull(cells, box, cell);
  }

  /** Taking members `from there to stop` of the current cell extends the piece. */
  lemma PieceGrows(cells: CellMap, box: Box, from: nat, entries: seq<nat>, cell: nat, membership: nat, stop: nat)
    requires Proper(box) && cell < Volume(box) && Piece(cells, box, from, entries, cell, membership)
    requires membership <= stop <= |At(cells, CellAt(box, cell))|
    ensures Piece(cells, box, from, entries + At(cells, CellAt(box, cell))[membership..stop], cell, stop)
  {
    CellInFull(cells, box, cell);
    hide CellAt, At, Full, Listing, Volume;
    var full, before, here := Full(cells, box), |Listing(cells, box, cell)|, At(cells, CellAt(box, cell));
    SliceOfSlice(full, before, |here|, membership, stop);
    SliceJoin(full, from, before + membership, before + stop);
    assert entries == full[from..before + membership]
           && here[membership..stop] == full[before + membership..before + stop];
    assert entries + here[membership..stop] == full[from..before + stop];
  }

  lemma SliceOfSlice(s: seq<nat>, at: nat, n: nat, i: nat, j: nat)
    requires at + n <= |s| && i <= j <= n
    ensures s[at..at + n][i..j] == s[at + i..at + j]
  {
    var part := s[at..at + n];
    forall k: nat | k < j - i ensures part[i..j][k] == s[at + i..at + j][k] {
      assert part[i..j][k] == part[i + k] && part[i + k] == s[at + (i + k)];
    }
  }

  lemma SliceJoin(s: seq<nat>, i: nat, j: nat, k: nat)
    requires i <= j <= k <= |s|
    ensures s[i..j] + s[j..k] == s[i..k]
  {}

  /** At the end of a cell the piece continues at the start of the next one. */
  lemma PieceMovesOn(cells: CellMap, box: Box, from: nat, entries: seq<nat>, cell: nat)
    requires Proper(box) && cell < Volume(box)
    requires Piece(cells, box, from, entries, cell, |At(cells, CellAt(box, cell))|)
    ensures Piece(cells, box, from, entries, cell + 1, 0)
  {
    hide CellAt, At;
    assert Place(cells, box, cell + 1, 0) == Place(cells, box, cell, |At(cells, CellAt(box, cell))|);
  }

  datatype Progress = Progress(valid: bool, cell: nat, membership: nat, entries: seq<nat>, visited: nat)

  method VisitCell(cells: CellMap, ghost box: Box, c: Cell, p: Progress, limits: Limits, ghost from: nat)
    returns (r: Progress, stopped: bool)
    requires Proper(box) && p.cell < Volume(box) && c == CellAt(box, p.cell) && p.valid
    requires |p.entries| < limits.visits && |p.entries| < limits.results && p.visited < limits.cells
    requires Spot(cells, box, p.cell, p.membership) ==> Piece(cells, box, from, p.entries, p.cell, p.membership)
    ensures r.valid <==> Spot(cells, box, p.cell, p.membership)
    ensures !r.valid ==> r.entries == p.entries && r.visited == p.visited + 1
    ensures r.valid ==> Piece(cells, box, from, r.entries, r.cell, r.membership) && r.visited == p.visited + 1
    ensures r.valid ==> |r.entries| <= limits.visits && |r.entries| <= limits.results && |r.entries| >= |p.entries|
    ensures r.valid ==> if stopped then r.cell == p.cell && |r.entries| > |p.entries|
                          else r.cell == p.cell + 1 && r.membership == 0
    ensures r.valid && stopped ==>
              r.membership > 0 && (|r.entries| == limits.visits || |r.entries| == limits.results)
  {
    hide Piece, CellAt, Volume;
    var visited := p.visited + 1;
    if c !in cells {
      if p.membership != 0 {
        return p.(valid := false, visited := visited), true;
      }
      PieceMovesOn(cells, box, from, p.entries, p.cell);
      return p.(cell := p.cell + 1, visited := visited), false;
    }
    var members := cells[c];
    if p.membership > |members| {
      return p.(valid := false, visited := visited), true;
    }
    var all, stop := TakeMembers(members, p.membership, p.entries, limits);
    PieceGrows(cells, box, from, p.entries, p.cell, p.membership, stop);
    if stop != |members| {
      return Progress(true, p.cell, stop, all, visited), true;
    }
    PieceMovesOn(cells, box, from, all, p.cell);
    return Progress(true, p.cell + 1, 0, all, visited), false;
  }

  /** The cell at linear position `k`, as the paging loop computes it from the measured box. */
  function CellFrom(space: string, first: seq<int>, extents: seq<nat>, k: nat): Cell
    requires |first| == 3 && |extents| == 3 && extents[1] * extents[2] > 0 && extents[1] > 0 && extents[2] > 0
  {
    Cell(space, first[0] + k / (extents[1] * extents[2]), first[1] + (k / extents[2]) % extents[1],
         first[2] + k % extents[2])
  }

  ghost predicate Frames(box: Box, first: seq<int>, extents: seq<nat>) {
    && |first| == 3 && |extents| == 3
    && box == Box(box.space, Span(first[0], first[0] + extents[0]), Span(first[1], first[1] + extents[1]),
                  Span(first[2], first[2] + extents[2]))
  }

  lemma CellFromIsCellAt(box: Box, first: seq<int>, extents: seq<nat>, k: nat)
    requires Proper(box) && Frames(box, first, extents)
    ensures |first| == 3 && |extents| == 3 && extents[1] > 0 && extents[2] > 0 && extents[1] * extents[2] > 0
    ensures CellFrom(box.space, first, extents, k) == CellAt(box, k)
  {
    Product(extents[1], extents[2]);
  }

  method VisitCells(cells: CellMap, ghost box: Box, space: string, first: seq<int>, extents: seq<nat>, total: nat,
                    cell: nat, membership: nat, limits: Limits) returns (p: Progress)
    requires Proper(box) && Frames(box, first, extents) && space == box.space && total == Volume(box)
    requires cell < total && LegalLimits(limits)
    ensures p.valid <==> Spot(cells, box, cell, membership)
    ensures !p.valid ==> p.entries == []
    ensures p.valid ==> Piece(cells, box, Place(cells, box, cell, membership), p.entries, p.cell, p.membership)
    ensures p.valid ==> |p.entries| <= limits.visits && |p.entries| <= limits.results && p.visited <= limits.cells
    ensures p.valid ==> p.cell >= cell && (p.cell > cell || p.entries != [])
    ensures !p.valid ==> p.visited == 1
    ensures p.valid ==> p.visited == p.cell - cell + if p.membership > 0 then 1 else 0
    ensures p.valid && p.membership > 0 ==> |p.entries| == limits.visits || |p.entries| == limits.results
    ensures p.valid && p.membership == 0 && p.cell < total ==>
              p.visited == limits.cells || |p.entries| == limits.visits || |p.entries| == limits.results
  {
    hide Piece, CellAt, Frames, Volume;
    p := Progress(true, cell, membership, [], 0);
    ghost var from := Place(cells, box, cell, membership);
    if Spot(cells, box, cell, membership) {
      PieceStarts(cells, box, cell, membership);
    }
    hide Spot;
    var stopped := false;
    while !stopped && p.cell < total && p.visited < limits.cells && |p.entries| < limits.visits
      && |p.entries| < limits.results
      invariant p.valid && p.cell >= cell && p.visited <= limits.cells && |p.entries| <= limits.visits
                && |p.entries| <= limits.results
      invariant p.visited == 0 ==> p == Progress(true, cell, membership, [], 0)
      invariant p.visited == 0 ==> !stopped
      invariant p.visited == p.cell - cell + if stopped then 1 else 0
      invariant p.visited > 0 ==> (stopped <==> p.membership > 0)
      invariant stopped ==> |p.entries| == limits.visits || |p.entries| == limits.results
      invariant p.visited > 0 ==> Spot(cells, box, cell, membership) && (p.cell > cell || p.entries != [])
      invariant Spot(cells, box, cell, membership) ==> Piece(cells, box, from, p.entries, p.cell, p.membership)
      decreases limits.cells - p.visited
    {
      CellFromIsCellAt(box, first, extents, p.cell);
      PieceIsSpot(cells, box, from, p.entries, p.cell, p.membership);
      var next;
      next, stopped := VisitCell(cells, box, CellFrom(space, first, extents, p.cell), p, limits, from);
      p := next;
      if !p.valid {
        return;
      }
    }
  }

  lemma PieceIsSpot(cells: CellMap, box: Box, from: nat, entries: seq<nat>, cell: nat, membership: nat)
    requires Proper(box) && cell < Volume(box)
    ensures Piece(cells, box, from, entries, cell, membership) ==> Spot(cells, box, cell, membership)
  {}

  ghost predicate Accepted(index: Index, space: string, bounds: Bounds)
    requires index.cellSize > 0.0
  {
    LegalQuery(space, bounds) && Judge(bounds, index.cellSize, 0, 1) == Fits
  }

  lemma AcceptedIsProper(index: Index, space: string, bounds: Bounds)
    requires index.cellSize > 0.0 && Accepted(index, space, bounds)
    ensures Proper(BoxOf(space, bounds, index.cellSize)) && FitsBox(BoxOf(space, bounds, index.cellSize))
  {
    JudgeFits(space, bounds, index.cellSize);
  }

  /** A page of an accepted query, resumed from a good cursor: the next piece of the full sequence. */
  ghost predicate NextPiece(index: Index, space: string, bounds: Bounds, limits: Limits, cursor: Option<Cursor>,
                            page: Page)
    requires index.cellSize > 0.0 && Proper(BoxOf(space, bounds, index.cellSize))
  {
    var box := BoxOf(space, bounds, index.cellSize);
    var next := if page.next.Some? then page.next.value else Cursor(index.epoch, space, bounds, 0, 0);
    && (page.status == Complete || page.status == More) && (page.status == More <==> page.next.Some?)
    && Resumes(index, space, bounds, page.next)
    && Cut(index.cells, box, StartCell(cursor), StartMembership(cursor), limits, page, next.cell, next.membership)
  }

  /** Answers one page. Each refusal has its exact condition; any other page is the next piece of the full sequence. */
  method QueryPage(index: Index, space: string, bounds: Bounds, limits: Limits, cursor: Option<Cursor>)
    returns (page: Page)
    requires index.cellSize > 0.0
    ensures page.status == InvalidInput <==>
            !LegalQuery(space, bounds) || !LegalLimits(limits) || Judge(bounds, index.cellSize, 0, 1) == OutOfRange
    ensures page.status == QueryCellLimit <==>
            LegalQuery(space, bounds) && LegalLimits(limits) && Judge(bounds, index.cellSize, 0, 1) == TooMany
    ensures Accepted(index, space, bounds) && LegalLimits(limits) ==>
              && Proper(BoxOf(space, bounds, index.cellSize))
              && (page.status == InvalidCursor <==> !Resumes(index, space, bounds, cursor))
              && (page.status != InvalidCursor ==> NextPiece(index, space, bounds, limits, cursor, page))
    ensures page.status != Complete && page.status != More ==> page.entries == [] && page.next == None
    ensures page.status != Complete && page.status != More ==>
              page.visits == 0 && page.cellsVisited <= if page.status == InvalidCursor then 1 else 0
  {
    page := Page(InvalidInput, [], None, 0, 0);
    if space == "" || |space| > MAX_SPACE_BYTES || !BoundsValid(bounds) || limits.cells == 0 || limits.cells > MAX_CELLS
       || limits.visits == 0 || limits.visits > MAX_VISITS || limits.results == 0 || limits.results > MAX_UNITS {
      return;
    }
    hide Judge, BoundsValid, Spot, Place;
    var verdict, first, extents, total := Measure(bounds, index.cellSize);
    if verdict == OutOfRange {
      return;
    }
    if verdict == TooMany {
      return page.(status := QueryCellLimit);
    }
    MeasuredBox(space, bounds, index.cellSize, first, extents);
    page := AnswerPage(index, space, bounds, first, extents, total, limits, cursor);
  }

  method AnswerPage(index: Index, space: string, bounds: Bounds, first: seq<int>, extents: seq<nat>, total: nat,
                    limits: Limits, cursor: Option<Cursor>) returns (page: Page)
    requires index.cellSize > 0.0 && Proper(BoxOf(space, bounds, index.cellSize)) && LegalLimits(limits)
    requires Frames(BoxOf(space, bounds, index.cellSize), first, extents)
             && total == Volume(BoxOf(space, bounds, index.cellSize))
    ensures page.status == InvalidCursor <==> !Resumes(index, space, bounds, cursor)
    ensures page.status != InvalidCursor ==> NextPiece(index, space, bounds, limits, cursor, page)
    ensures page.status == InvalidCursor ==> page.entries == [] && page.next == None
    ensures page.status == InvalidCursor ==> page.visits == 0 && page.cellsVisited <= 1
  {
    hide Frames, Volume, Piece, Place, CellAt, CellOf, At;
    page := Page(InvalidCursor, [], None, 0, 0);
    if cursor.Some? && (cursor.value.epoch != index.epoch || cursor.value.space != space
                        || cursor.value.bounds != bounds
                        || cursor.value.cell >= total) {
      return;
    }
    ghost var box := BoxOf(space, bounds, index.cellSize);
    var p := VisitCells(index.cells, box, space, first, extents, total, StartCell(cursor), StartMembership(cursor),
                        limits);
    if !p.valid {
      return page.(cellsVisited := p.visited);
    }
    PieceEnds(index.cells, box, Place(index.cells, box, StartCell(cursor), StartMembership(cursor)), p.entries,
              p.cell, p.membership);
    if p.cell == total {
      page := Page(Complete, p.entries, None, p.visited, |p.entries|);
    } else {
      page := Page(More, p.entries, Some(Cursor(index.epoch, space, bounds, p.cell, p.membership)), p.visited,
                   |p.entries|);
    }
  }

  lemma PieceEnds(cells: CellMap, box: Box, from: nat, entries: seq<nat>, cell: nat, membership: nat)
    requires Proper(box) && Piece(cells, box, from, entries, cell, membership)
    ensures from + |entries| <= |Full(cells, box)| && entries == Full(cells, box)[from..from + |entries|]
    ensures Place(cells, box, cell, membership) == from + |entries| && cell <= Volume(box)
    ensures cell == Volume(box) ==> from + |entries| == |Full(cells, box)| && membership == 0
    ensures cell != Volume(box) ==> Spot(cells, box, cell, membership)
  {}

  /** With room for all that is left, one page ends the query. */
  lemma OnePageIsEnough(index: Index, space: string, bounds: Bounds, limits: Limits, cursor: Option<Cursor>, page: Page)
    requires index.cellSize > 0.0 && Proper(BoxOf(space, bounds, index.cellSize))
    requires NextPiece(index, space, bounds, limits, cursor, page)
    requires var box := BoxOf(space, bounds, index.cellSize);
             var left := |Full(index.cells, box)| - Place(index.cells, box, StartCell(cursor), StartMembership(cursor));
             Volume(box) - StartCell(cursor) <= limits.cells && left < limits.visits && left < limits.results
    ensures page.status == Complete && page.next == None
    ensures page.entries == Full(index.cells, BoxOf(space, bounds, index.cellSize))
                            [Place(index.cells, BoxOf(space, bounds, index.cellSize), StartCell(cursor),
                                   StartMembership(cursor))..]
  {
    hide Full, Place, Volume, BoxOf;
    var box := BoxOf(space, bounds, index.cellSize);
    var full, from := Full(index.cells, box),
      Place(index.cells, box, StartCell(cursor), StartMembership(cursor));
    assert full[from..|full|] == full[from..];
  }

  /** Pages still possible: cells not yet passed and listings not yet returned. */
  ghost function Left(index: Index, box: Box, cursor: Option<Cursor>): int
    requires Proper(box)
  {
    Volume(box) - StartCell(cursor)
      + |Full(index.cells, box)| - Place(index.cells, box, StartCell(cursor), StartMembership(cursor))
  }

  /** Following the cursor under any legal limits, different on every page, ends with exactly the full sequence. */
  method FollowPages(index: Index, space: string, bounds: Bounds, limits: nat -> Limits)
    returns (all: seq<nat>, pages: nat)
    requires index.cellSize > 0.0 && Accepted(index, space, bounds) && forall n: nat :: LegalLimits(limits(n))
    ensures Proper(BoxOf(space, bounds, index.cellSize))
            && all == Full(index.cells, BoxOf(space, bounds, index.cellSize))
    ensures pages <= Volume(BoxOf(space, bounds, index.cellSize)) + |all|
  {
    AcceptedIsProper(index, space, bounds);
    ghost var box := BoxOf(space, bounds, index.cellSize);
    var cursor: Option<Cursor> := None;
    all, pages := [], 0;
    hide Volume, Full, Accepted, Spot, CellOf, Proper, FitsBox;
    var more := true;
    while more
      invariant Proper(box) && Accepted(index, space, bounds) && Resumes(index, space, bounds, cursor)
      invariant !more ==> all == Full(index.cells, box) && pages <= Volume(box) + |all|
      invariant more ==> |all| <= |Full(index.cells, box)| && all == Full(index.cells, box)[..|all|]
      invariant more ==> |all| == Place(index.cells, box, StartCell(cursor), StartMembership(cursor))
      invariant more ==> pages + Left(index, box, cursor) <= Volume(box) + |Full(index.cells, box)|
                         && Left(index, box, cursor) > 0
      decreases more, Left(index, box, cursor)
    {
      StillLeft(index, space, bounds, cursor);
      var page := QueryPage(index, space, bounds, limits(pages), cursor);
      assert all + page.entries == Full(index.cells, box)[..|all| + |page.entries|];
      if page.next.Some? {
        StillLeft(index, space, bounds, page.next);
      }
      all, pages, cursor := all + page.entries, pages + 1, page.next;
      more := page.status == More;
    }
  }

  lemma StillLeft(index: Index, space: string, bounds: Bounds, cursor: Option<Cursor>)
    requires index.cellSize > 0.0 && Proper(BoxOf(space, bounds, index.cellSize))
             && Resumes(index, space, bounds, cursor)
    ensures Left(index, BoxOf(space, bounds, index.cellSize), cursor) > 0
  {
    hide CellAt, At, CellOf;
    var box := BoxOf(space, bounds, index.cellSize);
    StartIsSpot(index, space, bounds, cursor);
    CellInFull(index.cells, box, StartCell(cursor));
  }

  /** The pages together name exactly the entries of the space whose cells overlap the query's. */
  lemma PagesFindOverlaps(index: Index, entries: seq<Entry>, space: string, bounds: Bounds, i: nat)
    requires Built(index, entries, |entries|) && BoundsValid(bounds)
    ensures Proper(BoxOf(space, bounds, index.cellSize))
    ensures i in Full(index.cells, BoxOf(space, bounds, index.cellSize)) <==>
            i < |entries| && Overlaps(entries[i], BoxOf(space, bounds, index.cellSize), index.cellSize)
  {
    var box := BoxOf(space, bounds, index.cellSize);
    BoxIsProper(space, bounds, index.cellSize);
    FullIsFound(index.cells, box, i);
    FoundIsOverlap(index, entries, box, i);
  }

  /** No entry of the space whose bounds touch the query's is missed. */
  lemma PagesMissNothing(index: Index, entries: seq<Entry>, space: string, bounds: Bounds, i: nat)
    requires Built(index, entries, |entries|) && BoundsValid(bounds)
    requires i < |entries| && entries[i].space == space && entries[i].bounds.Some?
             && Touches(entries[i].bounds.value, bounds)
    ensures Proper(BoxOf(space, bounds, index.cellSize)) && i in Full(index.cells, BoxOf(space, bounds, index.cellSize))
  {
    PagesFindOverlaps(index, entries, space, bounds, i);
    TouchingBoxesOverlap(space, entries[i].bounds.value, bounds, index.cellSize);
  }

  // The bounded query: nested loops over the cells, stopping at the result limit.

  /** `after` extends `before` by entries the box lists, and by all of them unless the limit is reached. */
  ghost predicate Gathered(cells: CellMap, box: Box, before: seq<nat>, after: seq<nat>, limit: nat) {
    && |before| <= |after| <= limit && Distinct(after)
    && (forall i :: i in before ==> i in after)
    && (forall i: nat :: i in after ==> i in before || Found(cells, box, i))
    && (|after| < limit ==> forall i: nat :: Found(cells, box, i) ==> i in after)
  }

  ghost predicate Joins(box: Box, a: Box, b: Box) {
    forall c :: InBox(c, box) <==> InBox(c, a) || InBox(c, b)
  }

  lemma GatheredNothing(cells: CellMap, box: Box, result: seq<nat>, limit: nat)
    requires !Proper(box) && Distinct(result) && |result| <= limit
    ensures Gathered(cells, box, result, result, limit)
  {}

  lemma GatheredTwice(cells: CellMap, box: Box, a: Box, b: Box, before: seq<nat>, middle: seq<nat>, after: seq<nat>,
                      limit: nat)
    requires Gathered(cells, a, before, middle, limit) && Gathered(cells, b, middle, after, limit) && Joins(box, a, b)
    ensures Gathered(cells, box, before, after, limit)
  {
    hide Distinct, InBox, At;
    forall i: nat ensures Found(cells, box, i) <==> Found(cells, a, i) || Found(cells, b, i) {
      FoundInEither(cells, box, a, b, i);
    }
    hide Found;
  }

  lemma FoundInEither(cells: CellMap, box: Box, a: Box, b: Box, i: nat)
    requires Joins(box, a, b)
    ensures Found(cells, box, i) <==> Found(cells, a, i) || Found(cells, b, i)
  {
    hide InBox, At;
  }

  /** A limit reached part of the way is reached for the whole box. */
  lemma GatheredEnough(cells: CellMap, box: Box, a: Box, b: Box, before: seq<nat>, after: seq<nat>, limit: nat)
    requires Gathered(cells, a, before, after, limit) && |after| == limit && Joins(box, a, b)
    ensures Gathered(cells, box, before, after, limit)
  {
    hide Distinct, InBox, At;
  }

  method GatherCell(cells: CellMap, c: Cell, before: seq<nat>, limit: nat) returns (result: seq<nat>)
    requires Distinct(before) && |before| < limit
    ensures Gathered(cells, One(c), before, result, limit)
  {
    result := before;
    var members := At(cells, c);
    var k := 0;
    while k < |members| && |result| < limit
      invariant k <= |members| && |before| <= |result| <= limit && Distinct(result)
      invariant forall i :: i in before ==> i in result
      invariant forall i :: i in result ==> i in before || i in members
      invariant forall j: nat :: j < k ==> members[j] in result
    {
      if members[k] !in result {
        result := result + [members[k]];
      }
      k := k + 1;
    }
    FoundInOne(cells, c);
  }

  lemma FoundInOne(cells: CellMap, c: Cell)
    ensures forall i: nat :: Found(cells, One(c), i) <==> i in At(cells, c)
  {
    assert InBox(c, One(c));
    assert forall d :: InBox(d, One(c)) ==> d == c;
  }

  method GatherColumn(cells: CellMap, box: Box, before: seq<nat>, limit: nat) returns (result: seq<nat>)
    requires Distinct(before) && |before| < limit && Proper(box) && Length(box.x) == 1 && Length(box.y) == 1
    ensures Gathered(cells, box, before, result, limit)
  {
    result := before;
    var z := box.z.first;
    GatheredNothing(cells, box.(z := Span(z, z)), before, limit);
    hide Gathered, Distinct;
    while z < box.z.end && |result| < limit
      invariant box.z.first <= z <= box.z.end && Gathered(cells, box.(z := Span(box.z.first, z)), before, result, limit)
    {
      ghost var middle := result;
      Bounded(cells, box.(z := Span(box.z.first, z)), before, result, limit);
      result := GatherCell(cells, Cell(box.space, box.x.first, box.y.first, z), result, limit);
      ghost var last := box.(z := Span(z, z + 1));
      assert One(Cell(box.space, box.x.first, box.y.first, z)) == last;
      GatheredTwice(cells, box.(z := Span(box.z.first, z + 1)), box.(z := Span(box.z.first, z)), last, before, middle,
                    result, limit);
      z := z + 1;
    }
    if z < box.z.end {
      Bounded(cells, box.(z := Span(box.z.first, z)), before, result, limit);
      GatheredEnough(cells, box, box.(z := Span(box.z.first, z)), box.(z := Span(z, box.z.end)), before, result, limit);
    }
  }

  lemma Bounded(cells: CellMap, box: Box, before: seq<nat>, after: seq<nat>, limit: nat)
    requires Gathered(cells, box, before, after, limit)
    ensures |after| <= limit && Distinct(after)
  {}

  method GatherSlice(cells: CellMap, box: Box, before: seq<nat>, limit: nat) returns (result: seq<nat>)
    requires Distinct(before) && |before| < limit && Proper(box) && Length(box.x) == 1
    ensures Gathered(cells, box, before, result, limit)
  {
    result := before;
    var y := box.y.first;
    GatheredNothing(cells, box.(y := Span(y, y)), before, limit);
    hide Gathered, Distinct;
    while y < box.y.end && |result| < limit
      invariant box.y.first <= y <= box.y.end && Gathered(cells, box.(y := Span(box.y.first, y)), before, result, limit)
    {
      ghost var middle := result;
      Bounded(cells, box.(y := Span(box.y.first, y)), before, result, limit);
      var last := box.(y := Span(y, y + 1));
      result := GatherColumn(cells, last, result, limit);
      GatheredTwice(cells, box.(y := Span(box.y.first, y + 1)), box.(y := Span(box.y.first, y)), last, before, middle,
                    result, limit);
      y := y + 1;
    }
    if y < box.y.end {
      Bounded(cells, box.(y := Span(box.y.first, y)), before, result, limit);
      GatheredEnough(cells, box, box.(y := Span(box.y.first, y)), box.(y := Span(y, box.y.end)), before, result, limit);
    }
  }

  method GatherBox(cells: CellMap, box: Box, limit: nat) returns (result: seq<nat>)
    requires limit > 0 && Proper(box)
    ensures Gathered(cells, box, [], result, limit)
  {
    result := [];
    var x := box.x.first;
    GatheredNothing(cells, box.(x := Span(x, x)), [], limit);
    hide Gathered, Distinct;
    while x < box.x.end && |result| < limit
      invariant box.x.first <= x <= box.x.end && Gathered(cells, box.(x := Span(box.x.first, x)), [], result, limit)
    {
      ghost var middle := result;
      Bounded(cells, box.(x := Span(box.x.first, x)), [], result, limit);
      var last := box.(x := Span(x, x + 1));
      result := GatherSlice(cells, last, result, limit);
      GatheredTwice(cells, box.(x := Span(box.x.first, x + 1)), box.(x := Span(box.x.first, x)), last, [], middle,
                    result, limit);
      x := x + 1;
    }
    if x < box.x.end {
      Bounded(cells, box.(x := Span(box.x.first, x)), [], result, limit);
      GatheredEnough(cells, box, box.(x := Span(box.x.first, x)), box.(x := Span(x, box.x.end)), [], result, limit);
    }
  }

  /** Answers in one go: ascending entries the box lists, and all of them when fewer than the limit. */
  method Query(index: Index, space: string, bounds: Bounds, limit: nat) returns (result: seq<nat>)
    requires index.cellSize > 0.0
    ensures Rising(result) && |result| <= limit
    ensures limit == 0 || !BoundsValid(bounds) || space == "" || Judge(bounds, index.cellSize, 0, 1) != Fits ==>
            result == []
    ensures limit > 0 && BoundsValid(bounds) && space != "" && Judge(bounds, index.cellSize, 0, 1) == Fits ==>
              var box := BoxOf(space, bounds, index.cellSize);
              && Proper(box)
              && (forall i: nat :: i in result ==> i in Full(index.cells, box))
              && (|result| < limit ==> forall i: nat :: i in Full(index.cells, box) ==> i in result)
  {
    result := [];
    if limit == 0 || !BoundsValid(bounds) || space == "" {
      return;
    }
    hide Judge, BoundsValid, CellOf;
    var verdict, _, _, _ := Measure(bounds, index.cellSize);
    if verdict != Fits {
      return;
    }
    BoxIsProper(space, bounds, index.cellSize);
    var box := BoxOf(space, bounds, index.cellSize);
    result := GatherBox(index.cells, box, limit);
    ghost var found := result;
    SortRises(result);
    result := Sort(result);
    hide Rising, Distinct, Found, Full, Proper, Sort;
    forall i: nat ensures i in Full(index.cells, box) <==> Found(index.cells, box, i) {
      FullIsFound(index.cells, box, i);
    }
  }
}
