/** The integer cells of the coarse grid: boxes of cells, and their order of visit. */
module CoarseCells {
  import opened Arithmetic

  const MIN_COORDINATE: int := -0x8000_0000
  const MAX_COORDINATE: int := 0x7FFF_FFFF
  const MAX_CELLS: nat := 4096

  type Vector = v: seq<real> | |v| == 3 witness [0.0, 0.0, 0.0]

  datatype Bounds = Bounds(minimum: Vector, maximum: Vector)

  predicate BoundsValid(b: Bounds) {
    forall a :: 0 <= a < 3 ==> b.minimum[a] <= b.maximum[a]
  }

  /** The point lies in the closed volume. */
  predicate Holds(b: Bounds, p: Vector) {
    forall a :: 0 <= a < 3 ==> b.minimum[a] <= p[a] <= b.maximum[a]
  }

  /** Bounds are valid exactly when they hold a point. */
  lemma ValidBoundsHold(b: Bounds)
    ensures BoundsValid(b) <==> exists p: Vector :: Holds(b, p)
  {
    assert BoundsValid(b) ==> Holds(b, b.minimum);
  }

  /** Two closed volumes share a point. */
  predicate Touches(a: Bounds, b: Bounds) {
    forall k :: 0 <= k < 3 ==> a.minimum[k] <= b.maximum[k] && b.minimum[k] <= a.maximum[k]
  }

  datatype Cell = Cell(space: string, x: int, y: int, z: int)

  /** The coordinates `first`, `first + 1`, … below `end`. */
  datatype Span = Span(first: int, end: int)

  datatype Box = Box(space: string, x: Span, y: Span, z: Span)

  predicate Within(k: int, s: Span) {
    s.first <= k < s.end
  }

  predicate InBox(c: Cell, b: Box) {
    c.space == b.space && Within(c.x, b.x) && Within(c.y, b.y) && Within(c.z, b.z)
  }

  predicate Meet(s: Span, t: Span) {
    s.first < t.end && t.first < s.end
  }

  predicate Overlap(a: Box, b: Box) {
    a.space == b.space && Meet(a.x, b.x) && Meet(a.y, b.y) && Meet(a.z, b.z)
  }

  function CellOf(x: real, size: real): int
    requires size > 0.0
  {
    (x / size).Floor
  }

  lemma Scaled(a: real, b: real, d: real)
    requires d > 0.0
    ensures a <= b <==> a * d <= b * d
  {
    if a <= b {
      assert (b - a) * d >= 0.0;
    } else {
      assert (a - b) * d > 0.0;
    }
  }

  /** The coordinate of unit cells that `q` falls into. */
  lemma FloorHolds(q: real, k: int, low: real, high: real)
    requires low == k as real && high == low + 1.0
    ensures k == q.Floor <==> low <= q < high
  {}

  lemma ScaledHolds(q: real, low: real, high: real, d: real, x: real, from: real, to: real)
    requires d > 0.0 && q * d == x && low * d == from && high * d == to
    ensures low <= q < high <==> from <= x < to
  {
    Scaled(low, q, d);
    Scaled(high, q, d);
  }

  /** The cell of a coordinate is the one that holds it. */
  lemma CellHolds(x: real, size: real, k: int)
    requires size > 0.0
    ensures k == CellOf(x, size) <==> k as real * size <= x < (k + 1) as real * size
  {
    var q, low, high := x / size, k as real, (k + 1) as real;
    assert q * size == x;
    FloorHolds(q, k, low, high);
    ScaledHolds(q, low, high, size, x, k as real * size, (k + 1) as real * size);
  }

  lemma CellOfMonotone(x: real, y: real, size: real)
    requires size > 0.0 && x <= y
    ensures CellOf(x, size) <= CellOf(y, size)
  {
    var p, q := x / size, y / size;
    assert p * size == x && q * size == y;
    if p > q {
      assert (p - q) * size > 0.0;
    }
  }

  function AxisSpan(b: Bounds, size: real, a: nat): (s: Span)
    requires size > 0.0 && a < 3
  {
    Span(CellOf(b.minimum[a], size), CellOf(b.maximum[a], size) + 1)
  }

  function BoxOf(space: string, b: Bounds, size: real): Box
    requires size > 0.0
  {
    Box(space, AxisSpan(b, size, 0), AxisSpan(b, size, 1), AxisSpan(b, size, 2))
  }

  predicate Proper(b: Box) {
    b.x.first < b.x.end && b.y.first < b.y.end && b.z.first < b.z.end
  }

  lemma BoxIsProper(space: string, b: Bounds, size: real)
    requires size > 0.0 && BoundsValid(b)
    ensures Proper(BoxOf(space, b, size))
  {
    forall a: nat | a < 3 ensures AxisSpan(b, size, a).first < AxisSpan(b, size, a).end {
      CellOfMonotone(b.minimum[a], b.maximum[a], size);
    }
  }

  /** On every axis the box of a volume has exactly the cells that hold a coordinate of the volume. */
  lemma SpanHolds(b: Bounds, size: real, a: nat, k: int)
    requires size > 0.0 && a < 3 && BoundsValid(b)
    ensures Within(k, AxisSpan(b, size, a)) <==>
            exists x: real :: b.minimum[a] <= x <= b.maximum[a] && CellOf(x, size) == k
  {
    var low, high := b.minimum[a], b.maximum[a];
    hide CellOf;
    if x: real :| low <= x <= high && CellOf(x, size) == k {
      CellOfMonotone(low, x, size);
      CellOfMonotone(x, high, size);
    }
    if Within(k, AxisSpan(b, size, a)) && k != CellOf(low, size) {
      CellEdge(low, high, size, k);
      assert CellOf(k as real * size, size) == k;
    }
  }

  /** Between two coordinates lies the lower edge of every later cell up to the last. */
  lemma CellEdge(low: real, high: real, size: real, k: int)
    requires size > 0.0 && CellOf(low, size) < k <= CellOf(high, size)
    ensures low <= k as real * size <= high && CellOf(k as real * size, size) == k
  {
    var p, q, edge := CellOf(low, size), CellOf(high, size), k as real * size;
    CellHolds(low, size, p);
    CellHolds(high, size, q);
    CellHolds(edge, size, k);
    hide CellOf;
    var after := p + 1;
    Ordered(after, k, size);
    assert low < after as real * size <= edge;
    Ordered(k, q, size);
    assert edge <= q as real * size <= high;
    var next := k + 1;
    Ordered(k, next, size);
    assert edge < next as real * size;
  }

  lemma Ordered(i: int, j: int, size: real)
    requires i <= j && size > 0.0
    ensures i as real * size <= j as real * size && (i < j ==> i as real * size < j as real * size)
  {
    Scaled(i as real, j as real, size);
    Scaled(j as real, i as real, size);
  }

  /** Volumes that touch have overlapping cell boxes: the grid only ever over-approximates. */
  lemma TouchingBoxesOverlap(space: string, a: Bounds, b: Bounds, size: real)
    requires size > 0.0 && Touches(a, b)
    ensures Overlap(BoxOf(space, a, size), BoxOf(space, b, size))
  {
    forall k: nat | k < 3 ensures Meet(AxisSpan(a, size, k), AxisSpan(b, size, k)) {
      CellOfMonotone(a.minimum[k], b.maximum[k], size);
      CellOfMonotone(b.minimum[k], a.maximum[k], size);
    }
  }

  function Max(a: int, b: int): int { if a < b then b else a }

  /** Proper boxes overlap exactly when some cell lies in both. */
  lemma OverlapIsSharedCell(a: Box, b: Box)
    requires Proper(a) && Proper(b)
    ensures Overlap(a, b) <==> exists c :: InBox(c, a) && InBox(c, b)
  {
    if Overlap(a, b) {
      var c := Cell(a.space, Max(a.x.first, b.x.first), Max(a.y.first, b.y.first), Max(a.z.first, b.z.first));
      assert InBox(c, a) && InBox(c, b);
    }
  }

  /** Valid volumes touch exactly when they share a point. */
  lemma TouchingSharePoint(a: Bounds, b: Bounds)
    requires BoundsValid(a) && BoundsValid(b)
    ensures Touches(a, b) <==> exists p: Vector :: Holds(a, p) && Holds(b, p)
  {
    if Touches(a, b) {
      var p: Vector := seq(3, k requires 0 <= k < 3 =>
        if a.minimum[k] < b.minimum[k] then b.minimum[k] else a.minimum[k]);
      assert Holds(a, p) && Holds(b, p);
    }
  }

  // How a volume is measured: axis by axis, addressable range first, then the running cell count.

  datatype Verdict = Fits | OutOfRange | TooMany

  predicate Addressable(s: Span) {
    MIN_COORDINATE <= s.first && s.end - 1 <= MAX_COORDINATE
  }

  function Length(s: Span): (n: int)
    ensures s.first < s.end ==> n > 0
  {
    s.end - s.first
  }

  function Volume(b: Box): (n: nat)
    requires Proper(b)
    ensures n > 0
  {
    Product(Length(b.x), Length(b.y));
    Product(Length(b.x) * Length(b.y), Length(b.z));
    Length(b.x) * Length(b.y) * Length(b.z)
  }

  /** The verdict on axes `a`, … given that the earlier ones span `count` cells. */
  function Judge(b: Bounds, size: real, a: nat, count: nat): Verdict
    requires size > 0.0 && a <= 3
    decreases 3 - a
  {
    if a == 3 then Fits
    else
      var s := AxisSpan(b, size, a);
      if !Addressable(s) then OutOfRange
      else if Length(s) * count > MAX_CELLS then TooMany
      else Judge(b, size, a + 1, if Length(s) > 0 then Length(s) * count else 0)
  }

  predicate FitsBox(b: Box) {
    Proper(b) && Addressable(b.x) && Addressable(b.y) && Addressable(b.z) && Volume(b) <= MAX_CELLS
  }

  /** The axis-by-axis verdict is favourable exactly when the whole box is addressable and small enough. */
  lemma JudgeFits(space: string, b: Bounds, size: real)
    requires size > 0.0 && BoundsValid(b)
    ensures Judge(b, size, 0, 1) == Fits <==> FitsBox(BoxOf(space, b, size))
  {
    BoxIsProper(space, b, size);
    var box := BoxOf(space, b, size);
    var x, y, z := Length(box.x), Length(box.y), Length(box.z);
    JudgeAxis(b, size, 0, 1);
    JudgeAxis(b, size, 1, x);
    Product(y, x);
    JudgeAxis(b, size, 2, y * x);
    Product(z, y * x);
    MeasureEnds(b, size, z * (y * x));
    hide Judge, CellOf, Addressable;
    assert Volume(box) == z * (y * x) by {
      Reorder(x, y, z);
    }
  }

  lemma Reorder(x: int, y: int, z: int)
    ensures x * y * z == z * (y * x)
  {}

  lemma JudgeAxis(b: Bounds, size: real, a: nat, count: nat)
    requires size > 0.0 && a < 3 && AxisSpan(b, size, a).first < AxisSpan(b, size, a).end && count > 0
    ensures var n := Length(AxisSpan(b, size, a));
            n * count > 0 && (Judge(b, size, a, count) == Fits <==>
            Addressable(AxisSpan(b, size, a)) && n * count <= MAX_CELLS && Judge(b, size, a + 1, n * count) == Fits)
  {
    Product(Length(AxisSpan(b, size, a)), count);
  }

  /** The division the measuring loop uses instead of a product decides the same question. */
  lemma QuotientGuard(extent: nat, count: nat)
    requires count > 0
    ensures extent > MAX_CELLS / count <==> extent * count > MAX_CELLS
  {
    var q, r := MAX_CELLS / count, MAX_CELLS % count;
    assert MAX_CELLS == q * count + r;
    if extent > q {
      assert extent * count >= (q + 1) * count by { Grow(extent, q + 1, count); }
      assert (q + 1) * count == q * count + count;
    } else {
      Grow(q, extent, count);
    }
  }

  /** The cells spanned by the axes measured so far. */
  function CellsAcross(extents: seq<nat>): nat {
    if extents == [] then 1 else extents[|extents| - 1] * CellsAcross(extents[..|extents| - 1])
  }

  predicate Measured(b: Bounds, size: real, first: seq<int>, extents: seq<nat>)
    requires size > 0.0
  {
    && |first| == |extents| <= 3
    && (forall a: nat :: a < |first| ==> AxisSpan(b, size, a) == Span(first[a], first[a] + extents[a]))
  }

  lemma MeasuredMore(b: Bounds, size: real, first: seq<int>, extents: seq<nat>, extent: nat)
    requires size > 0.0 && Measured(b, size, first, extents) && |first| < 3
    requires var s := AxisSpan(b, size, |first|); s.end == s.first + extent
    ensures Measured(b, size, first + [AxisSpan(b, size, |first|).first], extents + [extent])
    ensures CellsAcross(extents + [extent]) == extent * CellsAcross(extents)
  {
    assert (extents + [extent])[..|extents|] == extents;
  }

  /** Judges one axis of a volume, given the cells the earlier axes span. */
  method MeasureAxis(b: Bounds, size: real, a: nat, total: nat) returns (verdict: Verdict, extent: nat)
    requires size > 0.0 && BoundsValid(b) && a < 3 && total > 0
    ensures verdict != Fits ==> verdict == Judge(b, size, a, total)
    ensures verdict == Fits ==> extent > 0 && extent * total > 0
    ensures verdict == Fits ==> Judge(b, size, a, total) == Judge(b, size, a + 1, extent * total)
    ensures verdict == Fits ==> AxisSpan(b, size, a).end == AxisSpan(b, size, a).first + extent
  {
    CellOfMonotone(b.minimum[a], b.maximum[a], size);
    var low, high := CellOf(b.minimum[a], size), CellOf(b.maximum[a], size);
    hide CellOf;
    if low < MIN_COORDINATE || high > MAX_COORDINATE {
      return OutOfRange, 0;
    }
    extent := high - low + 1;
    QuotientGuard(extent, total);
    if extent > MAX_CELLS / total {
      return TooMany, 0;
    }
    Product(extent, total);
    return Fits, extent;
  }

  /** Measures a volume over the grid. */
  method Measure(b: Bounds, size: real) returns (verdict: Verdict, first: seq<int>, extents: seq<nat>, total: nat)
    requires size > 0.0 && BoundsValid(b)
    ensures verdict == Judge(b, size, 0, 1)
    ensures verdict == Fits ==> |first| == 3 && Measured(b, size, first, extents) && total == CellsAcross(extents)
  {
    hide Judge, Measured, CellsAcross;
    first, extents, total := [], [], 1;
    MeasureNothing(b, size);
    for a: nat := 0 to 3
      invariant |first| == a && total > 0 && total == CellsAcross(extents)
      invariant Judge(b, size, 0, 1) == Judge(b, size, a, total) && Measured(b, size, first, extents)
    {
      var axis, extent := MeasureAxis(b, size, a, total);
      if axis != Fits {
        return axis, [], [], 0;
      }
      MeasuredMore(b, size, first, extents, extent);
      first, extents, total := first + [CellOf(b.minimum[a], size)], extents + [extent], extent * total;
    }
    MeasureEnds(b, size, total);
    return Fits, first, extents, total;
  }

  lemma MeasureNothing(b: Bounds, size: real)
    requires size > 0.0
    ensures Measured(b, size, [], []) && CellsAcross([]) == 1
  {}

  lemma MeasureEnds(b: Bounds, size: real, total: nat)
    requires size > 0.0
    ensures Judge(b, size, 3, total) == Fits
  {}

  /** What was measured is the box itself. */
  lemma MeasuredBox(space: string, b: Bounds, size: real, first: seq<int>, extents: seq<nat>)
    requires size > 0.0 && BoundsValid(b) && |first| == 3 && Measured(b, size, first, extents)
    ensures BoxOf(space, b, size) == Box(space, Span(first[0], first[0] + extents[0]),
                                         Span(first[1], first[1] + extents[1]), Span(first[2], first[2] + extents[2]))
    ensures Proper(BoxOf(space, b, size)) && CellsAcross(extents) == Volume(BoxOf(space, b, size))
  {
    BoxIsProper(space, b, size);
    assert extents == [extents[0], extents[1], extents[2]];
    AcrossThree(extents[0], extents[1], extents[2]);
  }

  lemma AcrossThree(x: nat, y: nat, z: nat)
    ensures CellsAcross([x, y, z]) == x * y * z
  {
    assert [x, y, z][..2] == [x, y] && [x, y][..1] == [x];
    assert CellsAcross([x]) == x;
    assert CellsAcross([x, y]) == y * x;
  }

  // The linear order in which a paged query visits the cells of its box.

  function CellAt(b: Box, k: nat): Cell
    requires Proper(b)
  {
    var n, m := Length(b.z), Length(b.y);
    Product(m, n);
    Cell(b.space, b.x.first + k / (m * n), b.y.first + (k / n) % m, b.z.first + k % n)
  }

  function IndexOf(b: Box, c: Cell): int {
    ((c.x - b.x.first) * Length(b.y) + (c.y - b.y.first)) * Length(b.z) + (c.z - b.z.first)
  }

  lemma LowDigits(y: nat, z: nat, m: nat, n: nat)
    requires y < m && z < n
    ensures m * n > 0 && 0 <= y * n + z < m * n
  {
    Product(m, n);
    Grow(m, y + 1, n);
    assert (y + 1) * n == y * n + n;
  }

  lemma Distribute(x: nat, y: nat, m: nat, n: nat)
    ensures (x * m + y) * n == x * (m * n) + y * n
  {}

  /** A mixed-radix number read back digit by digit. */
  lemma Digits(x: nat, y: nat, z: nat, m: nat, n: nat)
    requires y < m && z < n
    ensures var k := (x * m + y) * n + z; m * n > 0 && k / (m * n) == x && (k / n) % m == y && k % n == z
  {
    LowDigits(y, z, m, n);
    Distribute(x, y, m, n);
    var q, d, r := x * m + y, m * n, y * n + z;
    var k := q * n + z;
    DivisionIsUnique(k, d, x, r);
    DivisionIsUnique(k, n, q, z);
    DivisionIsUnique(q, m, x, y);
  }

  /** Every cell of the box is visited, at the place its coordinates spell. */
  lemma CellIsVisited(b: Box, c: Cell)
    requires Proper(b) && InBox(c, b)
    ensures 0 <= IndexOf(b, c) < Volume(b) && CellAt(b, IndexOf(b, c)) == c
  {
    var x, y, z: nat := c.x - b.x.first, c.y - b.y.first, c.z - b.z.first;
    var l, m, n := Length(b.x), Length(b.y), Length(b.z);
    Digits(x, y, z, m, n);
    var q := x * m + y;
    assert q + 1 <= l * m by {
      Grow(l, x + 1, m);
      assert (x + 1) * m == x * m + m;
    }
    Grow(l * m, q + 1, n);
    assert (q + 1) * n == q * n + n;
  }

  /** Every place below the volume visits a cell of the box, and distinct places distinct cells. */
  lemma VisitIsInBox(b: Box, k: nat)
    requires Proper(b) && k < Volume(b)
    ensures InBox(CellAt(b, k), b) && IndexOf(b, CellAt(b, k)) == k
  {
    var l, m, n := Length(b.x), Length(b.y), Length(b.z);
    var q: nat, z: nat := k / n, k % n;
    assert k == q * n + z;
    var x: nat, y: nat := q / m, q % m;
    assert q == x * m + y;
    Digits(x, y, z, m, n);
    if x >= l {
      Grow(x, l, m);
      Grow(q, l * m, n);
    }
  }
}
