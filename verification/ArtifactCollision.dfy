/** The payload of a collision artifact: a triangle soup with its exact bounds. */
module ArtifactCollision {
  import opened Arithmetic
  import opened Options
  import opened ByteCodec
  import opened FloatRows
  import opened ArtifactMedia

  const MAX_POSITIONS: nat := 262_144
  const MAX_INDICES: nat := 1_048_576
  const MAX_COORDINATE: real := 1_000_000.0

  datatype Collision = Collision(positions: seq<Row>, indices: seq<nat>, bounds: Row)

  predicate CountsOk(positions: nat, indices: nat) {
    0 < positions <= MAX_POSITIONS && 0 < indices <= MAX_INDICES && indices % 3 == 0
  }

  predicate PositionOk(p: Row) {
    FiniteRow(p) && forall a: nat :: a < |p| ==> -MAX_COORDINATE <= Value(p[a]) <= MAX_COORDINATE
  }

  ghost predicate PositionsOk(positions: seq<Row>) {
    forall k: nat :: k < |positions| ==> PositionOk(positions[k])
  }

  /** `x` is the least of the positions' coordinates along axis `a`. */
  ghost predicate IsLeast(x: real, positions: seq<Row>, a: nat)
    requires ShapedRows(positions, 3) && a < 3
  {
    && (forall k: nat :: k < |positions| ==> x <= Value(positions[k][a]))
    && (exists k: nat :: k < |positions| && x == Value(positions[k][a]))
  }

  ghost predicate IsGreatest(x: real, positions: seq<Row>, a: nat)
    requires ShapedRows(positions, 3) && a < 3
  {
    && (forall k: nat :: k < |positions| ==> Value(positions[k][a]) <= x)
    && (exists k: nat :: k < |positions| && x == Value(positions[k][a]))
  }

  ghost predicate Low(low: Row, positions: seq<Row>)
    requires ShapedRows(positions, 3)
  {
    |low| == 3 && FiniteRow(low) && forall a: nat :: a < 3 ==> IsLeast(Value(low[a]), positions, a)
  }

  ghost predicate High(high: Row, positions: seq<Row>)
    requires ShapedRows(positions, 3)
  {
    |high| == 3 && FiniteRow(high) && forall a: nat :: a < 3 ==> IsGreatest(Value(high[a]), positions, a)
  }

  /** The componentwise smaller of two vectors, by value. */
  function Smaller(a: Row, b: Row): (r: Row)
    requires |a| == 3 && |b| == 3
  {
    seq(3, i requires 0 <= i < 3 => if Value(b[i]) < Value(a[i]) then b[i] else a[i])
  }

  function Larger(a: Row, b: Row): (r: Row)
    requires |a| == 3 && |b| == 3
  {
    seq(3, i requires 0 <= i < 3 => if Value(a[i]) < Value(b[i]) then b[i] else a[i])
  }

  lemma LeastMore(x: real, positions: seq<Row>, n: nat, a: nat)
    requires ShapedRows(positions, 3) && n < |positions| && a < 3 && IsLeast(x, positions[..n], a)
    ensures IsLeast(if Value(positions[n][a]) < x then Value(positions[n][a]) else x, positions[..n + 1], a)
  {
    hide Value;
    assert positions[..n + 1] == positions[..n] + [positions[n]];
    var k: nat :| k < n && x == Value(positions[..n][k][a]);
    assert positions[..n + 1][k] == positions[..n][k] && positions[..n + 1][n] == positions[n];
  }

  lemma GreatestMore(x: real, positions: seq<Row>, n: nat, a: nat)
    requires ShapedRows(positions, 3) && n < |positions| && a < 3 && IsGreatest(x, positions[..n], a)
    ensures IsGreatest(if x < Value(positions[n][a]) then Value(positions[n][a]) else x, positions[..n + 1], a)
  {
    hide Value;
    assert positions[..n + 1] == positions[..n] + [positions[n]];
    var k: nat :| k < n && x == Value(positions[..n][k][a]);
    assert positions[..n + 1][k] == positions[..n][k] && positions[..n + 1][n] == positions[n];
  }

  lemma LowMore(low: Row, positions: seq<Row>, n: nat)
    requires ShapedRows(positions, 3) && n < |positions| && Low(low, positions[..n]) && FiniteRow(positions[n])
    ensures |positions[n]| == 3 && Low(Smaller(low, positions[n]), positions[..n + 1])
  {
    hide Value, IsLeast, Finite;
    var p, r := positions[n], Smaller(low, positions[n]);
    forall a: nat | a < 3 ensures IsLeast(Value(r[a]), positions[..n + 1], a) {
      LeastMore(Value(low[a]), positions, n, a);
    }
  }

  lemma HighMore(high: Row, positions: seq<Row>, n: nat)
    requires ShapedRows(positions, 3) && n < |positions| && High(high, positions[..n]) && FiniteRow(positions[n])
    ensures |positions[n]| == 3 && High(Larger(high, positions[n]), positions[..n + 1])
  {
    hide Value, IsGreatest, Finite;
    var p, r := positions[n], Larger(high, positions[n]);
    forall a: nat | a < 3 ensures IsGreatest(Value(r[a]), positions[..n + 1], a) {
      GreatestMore(Value(high[a]), positions, n, a);
    }
  }

  lemma LowFirst(positions: seq<Row>)
    requires ShapedRows(positions, 3) && positions != [] && FiniteRow(positions[0])
    ensures Low(positions[0], positions[..1]) && High(positions[0], positions[..1])
  {
    hide Value, Finite;
    var one := positions[..1];
    assert one == [positions[0]];
    forall a: nat | a < 3 ensures IsLeast(Value(positions[0][a]), one, a)
      && IsGreatest(Value(positions[0][a]), one, a) {
      assert one[0][a] == positions[0][a];
    }
  }

  /** Checks every position and finds the corners of their box. */
  method Corners(positions: seq<Row>) returns (ok: bool, low: Row, high: Row)
    requires ShapedRows(positions, 3) && positions != []
    ensures ok <==> PositionsOk(positions)
    ensures ok ==> Low(low, positions) && High(high, positions)
  {
    hide Value, Low, High, Shaped;
    low, high := positions[0], positions[0];
    if !PositionOk(positions[0]) {
      return false, low, high;
    }
    LowFirst(positions);
    for n: nat := 1 to |positions|
      invariant PositionsOk(positions[..n]) && Low(low, positions[..n]) && High(high, positions[..n])
    {
      var p := positions[n];
      if !PositionOk(p) {
        return false, low, high;
      }
      assert positions[..n + 1] == positions[..n] + [p];
      LowMore(low, positions, n);
      HighMore(high, positions, n);
      CornerShape(low, high, positions[..n]);
      low, high := Smaller(low, p), Larger(high, p);
    }
    assert positions[..|positions|] == positions;
    return true, low, high;
  }

  lemma CornerShape(low: Row, high: Row, positions: seq<Row>)
    requires ShapedRows(positions, 3) && Low(low, positions) && High(high, positions)
    ensures |low| == 3 && |high| == 3
  {}

  /** Float equality with a finite value. */
  predicate SameFloat(finite: nat, bits: nat) {
    Finite(bits) && Value(finite) == Value(bits)
  }

  /** The stored bounds are finite and, by value, exactly the extremes of the positions. */
  ghost predicate BoundsTight(bounds: Row, positions: seq<Row>)
    requires ShapedRows(positions, 3)
  {
    |bounds| == 6 && Low(bounds[..3], positions) && High(bounds[3..], positions)
  }

  predicate SameRow(finite: Row, row: Row)
    requires |finite| == 3 && |row| == 3
  {
    forall a: nat :: a < 3 ==> SameFloat(finite[a], row[a])
  }

  lemma LowSame(low: Row, other: Row, positions: seq<Row>)
    requires ShapedRows(positions, 3) && Low(low, positions) && |other| == 3
    ensures SameRow(low, other) <==> Low(other, positions)
  {
    hide Value, Finite;
    forall a: nat | a < 3 ensures IsLeast(Value(other[a]), positions, a) <==> Value(low[a]) == Value(other[a]) {
      LeastUnique(Value(low[a]), Value(other[a]), positions, a);
    }
  }

  lemma HighSame(high: Row, other: Row, positions: seq<Row>)
    requires ShapedRows(positions, 3) && High(high, positions) && |other| == 3
    ensures SameRow(high, other) <==> High(other, positions)
  {
    hide Value, Finite;
    forall a: nat | a < 3 ensures IsGreatest(Value(other[a]), positions, a) <==> Value(high[a]) == Value(other[a]) {
      GreatestUnique(Value(high[a]), Value(other[a]), positions, a);
    }
  }

  lemma LeastUnique(x: real, y: real, positions: seq<Row>, a: nat)
    requires ShapedRows(positions, 3) && a < 3 && IsLeast(x, positions, a)
    ensures IsLeast(y, positions, a) <==> x == y
  {
    hide Value;
  }

  lemma GreatestUnique(x: real, y: real, positions: seq<Row>, a: nat)
    requires ShapedRows(positions, 3) && a < 3 && IsGreatest(x, positions, a)
    ensures IsGreatest(y, positions, a) <==> x == y
  {
    hide Value;
  }

  // Triangles. Whether three corners span no area is decided in rounded arithmetic, and is a parameter here.

  predicate TriangleOk(positions: seq<Row>, a: nat, b: nat, c: nat, flat: (Row, Row, Row) -> bool) {
    && a < |positions| && b < |positions| && c < |positions| && a != b && a != c && b != c
    && !flat(positions[a], positions[b], positions[c])
  }

  ghost predicate TrianglesOk(positions: seq<Row>, indices: seq<nat>, flat: (Row, Row, Row) -> bool, n: nat)
    requires 3 * n <= |indices|
  {
    forall t: nat :: t < n ==> TriangleOk(positions, indices[3 * t], indices[3 * t + 1], indices[3 * t + 2], flat)
  }

  ghost predicate CollisionOk(v: Collision, flat: (Row, Row, Row) -> bool) {
    && CountsOk(|v.positions|, |v.indices|) && ShapedRows(v.positions, 3)
    && PositionsOk(v.positions) && BoundsTight(v.bounds, v.positions)
    && TrianglesOk(v.positions, v.indices, flat, |v.indices| / 3)
  }

  method CheckTriangles(positions: seq<Row>, indices: seq<nat>, flat: (Row, Row, Row) -> bool) returns (ok: bool)
    requires |indices| % 3 == 0
    ensures ok <==> TrianglesOk(positions, indices, flat, |indices| / 3)
  {
    var i := 0;
    while i < |indices|
      invariant i <= |indices| && i % 3 == 0 && TrianglesOk(positions, indices, flat, i / 3)
      decreases |indices| - i
    {
      var t := i / 3;
      assert i == 3 * t;
      var a, b, c := indices[i], indices[i + 1], indices[i + 2];
      if a >= |positions| || b >= |positions| || c >= |positions| || a == b || a == c || b == c
         || flat(positions[a], positions[b], positions[c]) {
        return false;
      }
      i := i + 3;
    }
    return true;
  }

  /** Accepts exactly well-formed collision values. */
  method ValidateCollision(v: Collision, flat: (Row, Row, Row) -> bool) returns (ok: bool)
    requires ShapedRows(v.positions, 3) && |v.bounds| == 6
    ensures ok <==> CollisionOk(v, flat)
  {
    if |v.positions| == 0 || |v.positions| > MAX_POSITIONS || |v.indices| == 0 || |v.indices| > MAX_INDICES
       || |v.indices| % 3 != 0 {
      return false;
    }
    hide ShapedRows, PositionsOk, TrianglesOk, SameRow, Low, High;
    var low, high;
    ok, low, high := Corners(v.positions);
    if !ok {
      return;
    }
    CornerShape(low, high, v.positions);
    LowSame(low, v.bounds[..3], v.positions);
    HighSame(high, v.bounds[3..], v.positions);
    if !SameRow(low, v.bounds[..3]) || !SameRow(high, v.bounds[3..]) {
      return false;
    }
    ok := CheckTriangles(v.positions, v.indices, flat);
  }

  // The bytes.

  predicate CollisionTyped(v: Collision) {
    ShapedRows(v.positions, 3) && Shaped(v.bounds, 6) && Below(v.indices, Pow256(4))
  }

  function PrintCollision(v: Collision): seq<Byte> {
    Le(|v.positions|, 4) + (Le(|v.indices|, 4)
      + (PrintRow(v.bounds) + (PrintAll(PrintRow, v.positions) + PrintAll(PrintWord(4), v.indices))))
  }

  lemma {:induction false} PrintedRows(rows: seq<Row>, width: nat)
    requires ShapedRows(rows, width)
    ensures |PrintAll(PrintRow, rows)| == 4 * width * |rows|
  {
    if rows != [] {
      PrintedRows(rows[1..], width);
      PrintedWords(rows[0], 4);
      assert 4 * width * |rows| == 4 * width + 4 * width * (|rows| - 1);
    }
  }

  method EncodeCollision(out: seq<Byte>, v: Collision, flat: (Row, Row, Row) -> bool) returns (r: Option<seq<Byte>>)
    requires CollisionTyped(v)
    ensures r.Some? <==> CollisionOk(v, flat)
    ensures r.Some? ==> r.value == out + PrintCollision(v)
  {
    hide CollisionOk, PrintAll, Le, PrintRow;
    var ok := ValidateCollision(v, flat);
    if !ok {
      return None;
    }
    var bytes := AppendWord(out, |v.positions|, 4);
    bytes := AppendWord(bytes, |v.indices|, 4);
    bytes := AppendRow(bytes, v.bounds);
    ok, bytes := AppendRows(bytes, v.positions, (before, row) => true, false);
    bytes := AppendWords(bytes, v.indices, 4);
    Append5(out, Le(|v.positions|, 4), Le(|v.indices|, 4), PrintRow(v.bounds), PrintAll(PrintRow, v.positions),
            PrintAll(PrintWord(4), v.indices));
    return Some(bytes);
  }

  lemma FiniteParts(v: Collision, flat: (Row, Row, Row) -> bool)
    requires CollisionOk(v, flat)
    ensures FiniteRow(v.bounds) && Good(v.positions, (before, row) => true)
  {
    hide Value, Finite, IsLeast, IsGreatest;
    forall k: nat | k < 6 ensures Finite(v.bounds[k]) {
      assert k < 3 ==> v.bounds[..3][k] == v.bounds[k];
      assert k >= 3 ==> v.bounds[3..][k - 3] == v.bounds[k];
    }
  }

  method DecodeCollision(bytes: seq<Byte>, offset: nat, flat: (Row, Row, Row) -> bool, ghost e: Collision)
    returns (r: Option<Collision>)
    requires offset <= |bytes|
    ensures r.Some? ==> CollisionTyped(r.value) && CollisionOk(r.value, flat)
                        && bytes[offset..] == PrintCollision(r.value)
    ensures CollisionTyped(e) && CollisionOk(e, flat) && bytes[offset..] == PrintCollision(e) ==> r == Some(e)
  {
    hide Starts, Le, PrintRow, PrintAll, Pow256, CollisionOk, PrintCollision;
    ghost var expected := CollisionTyped(e) && CollisionOk(e, flat) && bytes[offset..] == PrintCollision(e);
    ghost var body := PrintRow(e.bounds) + (PrintAll(PrintRow, e.positions) + PrintAll(PrintWord(4), e.indices));
    WholeRest(bytes, offset, PrintCollision(e));
    if expected {
      CollisionSizes(e, flat);
    }
    var positions := ReadField(bytes, offset, 4, |e.positions|, Le(|e.indices|, 4) + body);
    if positions.Bad? {
      return None;
    }
    var indices := ReadField(bytes, positions.next, 4, |e.indices|, body);
    if indices.Bad? {
      return None;
    }
    var p, i, next := positions.value, indices.value, indices.next;
    if !CountsOk(p, i) || |bytes| - next != 6 * 4 + p * 3 * 4 + i * 4 {
      return None;
    }
    assert expected ==> p == |e.positions| && i == |e.indices| && Starts(bytes, next, body);
    r := DecodeBody(bytes, next, p, i, flat, e);
    if r.Some? {
      CollisionJoin(bytes, offset, r.value);
    }
  }

  lemma CollisionSizes(e: Collision, flat: (Row, Row, Row) -> bool)
    requires CollisionTyped(e) && CollisionOk(e, flat)
    ensures |e.positions| < Pow256(4) && |e.indices| < Pow256(4) && CountsOk(|e.positions|, |e.indices|)
    ensures var body := PrintRow(e.bounds) + (PrintAll(PrintRow, e.positions) + PrintAll(PrintWord(4), e.indices));
            && PrintCollision(e) == Le(|e.positions|, 4) + (Le(|e.indices|, 4) + body)
            && |PrintCollision(e)| == 8 + |body| && |body| == 6 * 4 + |e.positions| * 3 * 4 + |e.indices| * 4
  {
    hide PrintAll, PrintRow, Le, BoundsTight, PositionsOk, TrianglesOk;
    FourBytes();
    BodySize(e);
  }

  lemma BodySize(e: Collision)
    requires CollisionTyped(e)
    ensures |PrintRow(e.bounds)| == 24 && |PrintAll(PrintRow, e.positions)| == |e.positions| * 12
    ensures |PrintAll(PrintWord(4), e.indices)| == |e.indices| * 4
  {
    PrintedWords(e.bounds, 4);
    PrintedRows(e.positions, 3);
    PrintedWords(e.indices, 4);
  }

  method DecodeBody(bytes: seq<Byte>, offset: nat, p: nat, i: nat, flat: (Row, Row, Row) -> bool, ghost e: Collision)
    returns (r: Option<Collision>)
    requires offset <= |bytes| && |bytes| - offset == 6 * 4 + p * 3 * 4 + i * 4
    ensures r.Some? ==> CollisionTyped(r.value) && CollisionOk(r.value, flat) && |r.value.positions| == p
                        && |r.value.indices| == i
                        && bytes[offset..] == PrintRow(r.value.bounds)
                           + (PrintAll(PrintRow, r.value.positions) + PrintAll(PrintWord(4), r.value.indices))
    ensures CollisionTyped(e) && CollisionOk(e, flat) && |e.positions| == p && |e.indices| == i
            && Starts(bytes, offset, PrintRow(e.bounds)
                      + (PrintAll(PrintRow, e.positions) + PrintAll(PrintWord(4), e.indices)))
            ==> r == Some(e)
  {
    hide Starts, Le, PrintRow, PrintAll, Pow256, CollisionOk, FiniteRow, Good, PrintWord;
    ghost var tail := PrintAll(PrintRow, e.positions) + PrintAll(PrintWord(4), e.indices);
    ghost var expected := CollisionTyped(e) && CollisionOk(e, flat) && |e.positions| == p && |e.indices| == i
                          && Starts(bytes, offset, PrintRow(e.bounds) + tail);
    if expected {
      FiniteParts(e, flat);
    }
    StartsSplit(bytes, offset, PrintRow(e.bounds), tail);
    var bounds := ReadRow(bytes, offset, 6, e.bounds);
    if bounds.Bad? {
      return None;
    }
    StartsSplit(bytes, bounds.next, PrintAll(PrintRow, e.positions), PrintAll(PrintWord(4), e.indices));
    var positions := ReadRows(bytes, bounds.next, p, 3, (before, row) => true, e.positions);
    if positions.Bad? {
      return None;
    }
    var indices := ReadWords(bytes, positions.next, i, 4, _ => true, e.indices);
    if indices.Bad? {
      return None;
    }
    var v := Collision(positions.value, indices.value, bounds.value);
    var ok := ValidateCollision(v, flat);
    if !ok {
      return None;
    }
    BodyJoin(bytes, offset, v);
    return Some(v);
  }

  lemma BodyJoin(bytes: seq<Byte>, offset: nat, v: Collision)
    requires CollisionTyped(v) && Starts(bytes, offset, PrintRow(v.bounds))
    requires Starts(bytes, offset + |PrintRow(v.bounds)|, PrintAll(PrintRow, v.positions))
    requires Starts(bytes, offset + |PrintRow(v.bounds)| + |PrintAll(PrintRow, v.positions)|,
                    PrintAll(PrintWord(4), v.indices))
    requires offset <= |bytes| && |bytes| - offset == 6 * 4 + |v.positions| * 3 * 4 + |v.indices| * 4
    ensures bytes[offset..] == PrintRow(v.bounds)
            + (PrintAll(PrintRow, v.positions) + PrintAll(PrintWord(4), v.indices))
  {
    BodySize(v);
    hide PrintAll, PrintRow;
    var a, b, c := PrintRow(v.bounds), PrintAll(PrintRow, v.positions), PrintAll(PrintWord(4), v.indices);
    StartsSplit(bytes, offset + |a|, b, c);
    StartsSplit(bytes, offset, a, b + c);
    WholeRest(bytes, offset, a + (b + c));
  }

  lemma CollisionJoin(bytes: seq<Byte>, offset: nat, v: Collision)
    requires Starts(bytes, offset, Le(|v.positions|, 4)) && Starts(bytes, offset + 4, Le(|v.indices|, 4))
             && offset + 8 <= |bytes|
    requires bytes[offset + 8..] == PrintRow(v.bounds)
             + (PrintAll(PrintRow, v.positions) + PrintAll(PrintWord(4), v.indices))
    ensures bytes[offset..] == PrintCollision(v)
  {
    hide PrintAll, PrintRow;
    Rejoin(bytes, offset, Le(|v.positions|, 4), Le(|v.indices|, 4));
  }
}
