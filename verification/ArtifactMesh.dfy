/** The payload of a static mesh artifact. */
module ArtifactMesh {
  import opened Arithmetic
  import opened Options
  import opened ByteCodec
  import opened FloatRows
  import opened ArtifactMedia
  import opened ArtifactCollision

  const MAX_VERTICES: nat := 262_144
  const MAX_MESH_INDICES: nat := 1_048_576
  const MAX_SUBMESHES: nat := 256
  const FIRST_VERSION: nat := 1
  const PLAIN_VERSION: nat := 2
  const COLLISION_VERSION: nat := 4

  datatype Primitive = Primitive(first: nat, count: nat, material: Option<AssetId>)

  /** `submeshes` is derived on decoding and ignored on encoding. */
  datatype Mesh = Mesh(vertices: seq<Row>, indices: seq<nat>, bounds: Row, submeshes: nat,
                       primitives: Option<seq<Primitive>>, collision: Option<AssetId>)

  /** A mesh without a primitive list is one primitive over all its indices. */
  function Parts(v: Mesh): seq<Primitive> {
    if v.primitives.Some? then v.primitives.value else [Primitive(0, |v.indices|, None)]
  }

  /** What decoding gives back: the primitive list made explicit, and counted. */
  function Canonical(v: Mesh): Mesh {
    v.(primitives := Some(Parts(v)), submeshes := |Parts(v)|)
  }

  function VersionOf(v: Mesh): nat {
    if v.collision.Some? then COLLISION_VERSION else PLAIN_VERSION
  }

  predicate PrimitiveTyped(p: Primitive) {
    p.first < Pow256(4) && p.count < Pow256(4) && ReferenceTyped(p.material)
  }

  predicate RangeOk(first: nat, count: nat, indices: nat) {
    count != 0 && count % 3 == 0 && first <= indices && count <= indices - first
  }

  predicate PrimitiveOk(p: Primitive, indices: nat) {
    RangeOk(p.first, p.count, indices) && ReferenceOk(p.material)
  }

  predicate PrimitivesTyped(s: seq<Primitive>) {
    forall k: nat :: k < |s| ==> PrimitiveTyped(s[k])
  }

  predicate PrimitivesOk(s: seq<Primitive>, indices: nat) {
    forall k: nat :: k < |s| ==> PrimitiveOk(s[k], indices)
  }

  function PrintPrimitive(p: Primitive): seq<Byte> {
    Le(p.first, 4) + (Le(p.count, 4) + PrintReference(p.material))
  }

  predicate MeshTyped(v: Mesh) {
    && ShapedRows(v.vertices, 12) && Below(v.indices, Pow256(4)) && Shaped(v.bounds, 6)
    && (v.primitives.Some? ==> PrimitivesTyped(v.primitives.value)) && ReferenceTyped(v.collision)
  }

  predicate SizesOk(vertices: nat, indices: nat, parts: nat) {
    0 < vertices <= MAX_VERTICES && 0 < indices <= MAX_MESH_INDICES && 0 < parts <= MAX_SUBMESHES
  }

  /** What the encoder accepts. */
  predicate MeshOk(v: Mesh) {
    && SizesOk(|v.vertices|, |v.indices|, |Parts(v)|) && Below(v.indices, |v.vertices|)
    && PrimitivesOk(Parts(v), |v.indices|) && ReferenceOk(v.collision)
  }

  /** What the decoder asks beyond the encoder: finite numbers, and no vertex whose normal vanishes. */
  ghost predicate MeshFits(v: Mesh, flatNormal: Row -> bool) {
    FiniteRow(v.bounds) && Good(v.vertices, (before, row) => !flatNormal(row))
  }

  function PrintTail(v: Mesh): seq<Byte> {
    PrintAll(PrintPrimitive, Parts(v)) + (if v.collision.Some? then PrintId(v.collision.value) else [])
  }

  function PrintBody(v: Mesh): seq<Byte> {
    PrintRow(v.bounds) + (PrintAll(PrintRow, v.vertices) + (PrintAll(PrintWord(4), v.indices) + PrintTail(v)))
  }

  function PrintMesh(v: Mesh): seq<Byte> {
    Le(|v.vertices|, 4) + (Le(|v.indices|, 4) + (Le(|Parts(v)|, 4) + PrintBody(v)))
  }

  method AppendIndices(out: seq<Byte>, s: seq<nat>, limit: nat) returns (r: Option<seq<Byte>>)
    ensures r == if Below(s, limit) then Some(out + PrintAll(PrintWord(4), s)) else None
  {
    for k: nat := 0 to |s|
      invariant Below(s[..k], limit)
    {
      assert s[..k + 1] == s[..k] + [s[k]];
      if s[k] >= limit {
        return None;
      }
    }
    assert s[..|s|] == s;
    var bytes := AppendWords(out, s, 4);
    return Some(bytes);
  }

  method AppendPrimitive(out: seq<Byte>, p: Primitive) returns (r: seq<Byte>)
    ensures r == out + PrintPrimitive(p)
  {
    hide Le, PrintReference;
    r := AppendWord(out, p.first, 4);
    r := AppendWord(r, p.count, 4);
    r := AppendReference(r, p.material);
    Append3(out, Le(p.first, 4), Le(p.count, 4), PrintReference(p.material));
  }

  lemma PrimitivesMore(s: seq<Primitive>, k: nat, indices: nat)
    requires k < |s|
    ensures s[..k + 1] == s[..k] + [s[k]]
    ensures PrimitivesOk(s[..k + 1], indices) <==> PrimitivesOk(s[..k], indices) && PrimitiveOk(s[k], indices)
    ensures PrimitivesOk(s, indices) ==> PrimitiveOk(s[k], indices)
  {
    hide PrimitiveOk;
    assert s[..k + 1][k] == s[k];
    assert forall i: nat :: i < k ==> s[..k][i] == s[..k + 1][i];
  }

  method AppendPrimitives(out: seq<Byte>, s: seq<Primitive>, indices: nat) returns (r: Option<seq<Byte>>)
    ensures r == if PrimitivesOk(s, indices) then Some(out + PrintAll(PrintPrimitive, s)) else None
  {
    var bytes := out;
    for k: nat := 0 to |s|
      invariant PrimitivesOk(s[..k], indices) && bytes == out + PrintAll(PrintPrimitive, s[..k])
    {
      hide PrintAll, PrintPrimitive, PrimitivesOk;
      PrimitivesMore(s, k, indices);
      var p := s[k];
      if p.count == 0 || p.count % 3 != 0 || p.first > indices || p.count > indices - p.first {
        return None;
      }
      if p.material.Some? && !IdOk(p.material.value) {
        return None;
      }
      hide PrimitiveOk;
      PrintAllNext(PrintPrimitive, s[..k], s[k]);
      bytes := AppendPrimitive(bytes, s[k]);
      Append2(out, PrintAll(PrintPrimitive, s[..k]), PrintPrimitive(s[k]));
    }
    assert s[..|s|] == s;
    return Some(bytes);
  }

  method EncodeMesh(out: seq<Byte>, v: Mesh) returns (r: Option<seq<Byte>>)
    ensures r == if MeshOk(v) then Some(out + PrintMesh(v)) else None
  {
    hide PrintAll, Le, PrintRow, PrintPrimitive, PrimitivesOk, Below, PrintReference;
    if |v.vertices| == 0 || |v.indices| == 0 || |v.vertices| > MAX_VERTICES || |v.indices| > MAX_MESH_INDICES {
      return None;
    }
    var parts := if v.primitives.Some? then v.primitives.value else [Primitive(0, |v.indices|, None)];
    if |parts| == 0 || |parts| > MAX_SUBMESHES {
      return None;
    }
    var bytes := AppendWord(out, |v.vertices|, 4);
    bytes := AppendWord(bytes, |v.indices|, 4);
    bytes := AppendWord(bytes, |parts|, 4);
    bytes := AppendRow(bytes, v.bounds);
    var ok;
    ok, bytes := AppendRows(bytes, v.vertices, (before, row) => true, false);
    ghost var front := bytes;
    var step := AppendIndices(bytes, v.indices, |v.vertices|);
    if step.None? {
      return None;
    }
    step := AppendPrimitives(step.value, parts, |v.indices|);
    if step.None? {
      return None;
    }
    bytes := step.value;
    if v.collision.Some? {
      if !IdOk(v.collision.value) {
        return None;
      }
      bytes := AppendId(bytes, v.collision.value);
    }
    MeshPieces(out, v, front, bytes);
    return Some(bytes);
  }

  lemma MeshPieces(out: seq<Byte>, v: Mesh, front: seq<Byte>, bytes: seq<Byte>)
    requires front == out + Le(|v.vertices|, 4) + Le(|v.indices|, 4) + Le(|Parts(v)|, 4) + PrintRow(v.bounds)
             + PrintAll(PrintRow, v.vertices)
    requires bytes == front + PrintAll(PrintWord(4), v.indices) + PrintAll(PrintPrimitive, Parts(v))
                      + (if v.collision.Some? then PrintId(v.collision.value) else [])
    ensures bytes == out + PrintMesh(v)
  {
    hide PrintAll, Le, PrintRow, PrintId, Parts;
    var rest := PrintAll(PrintWord(4), v.indices) + PrintTail(v);
    Append3(front, PrintAll(PrintWord(4), v.indices), PrintAll(PrintPrimitive, Parts(v)),
            if v.collision.Some? then PrintId(v.collision.value) else []);
    assert bytes == front + rest;
    Append6(out, Le(|v.vertices|, 4), Le(|v.indices|, 4), Le(|Parts(v)|, 4), PrintRow(v.bounds),
            PrintAll(PrintRow, v.vertices), rest);
  }

  /** A mesh without a primitive list is accepted exactly when its indices make whole triangles, and then it is written
      as one primitive that covers them all. */
  lemma PlainIsOneRange(v: Mesh)
    requires v.primitives.None?
    ensures MeshOk(v) <==>
            && 0 < |v.vertices| <= MAX_VERTICES && 0 < |v.indices| <= MAX_MESH_INDICES && |v.indices| % 3 == 0
            && (forall k :: 0 <= k < |v.indices| ==> v.indices[k] < |v.vertices|)
            && (v.collision.Some? ==> IdOk(v.collision.value))
    ensures PrintMesh(v) == PrintMesh(v.(primitives := Some([Primitive(0, |v.indices|, None)])))
  {
    hide PrintAll, Le, PrintRow, PrintPrimitive, PrintId;
    var w := v.(primitives := Some([Primitive(0, |v.indices|, None)]));
    assert PrintTail(w) == PrintTail(v);
    var whole := Primitive(0, |v.indices|, None);
    assert Parts(v) == [whole] && Parts(v)[0] == whole;
    assert PrimitivesOk(Parts(v), |v.indices|) <==> PrimitiveOk(whole, |v.indices|);
  }

  /** What a decoded mesh has of the one that was encoded. */
  ghost predicate SameMesh(v: Mesh, d: Mesh) {
    && d.vertices == v.vertices && d.indices == v.indices && d.bounds == v.bounds && d.collision == v.collision
    && match v.primitives
       case None => d.primitives == Some([Primitive(0, |v.indices|, None)]) && d.submeshes == 1
       case Some(s) => d.primitives == Some(s) && d.submeshes == |s|
  }

  lemma CanonicalIsSame(v: Mesh)
    ensures SameMesh(v, Canonical(v))
  {}

  // Decoding.

  /** Reads one primitive; a range outside the indices or a null material is refused. */
  method ReadPrimitive(bytes: seq<Byte>, offset: nat, indices: nat, ghost e: Primitive) returns (r: Read<Primitive>)
    requires offset <= |bytes|
    ensures r.Ok? ==> PrimitiveTyped(r.value) && PrimitiveOk(r.value, indices)
                      && Starts(bytes, offset, PrintPrimitive(r.value))
                      && r.next == offset + |PrintPrimitive(r.value)| <= |bytes|
    ensures PrimitiveTyped(e) && Starts(bytes, offset, PrintPrimitive(e)) ==>
              r == if PrimitiveOk(e, indices) then Ok(e, offset + |PrintPrimitive(e)|) else Bad
  {
    hide Starts, Le, Pow256, PrintReference, ReferenceOk, ReferenceTyped;
    ghost var expected := PrimitiveTyped(e) && Starts(bytes, offset, PrintPrimitive(e));
    var first := ReadField(bytes, offset, 4, e.first, Le(e.count, 4) + PrintReference(e.material));
    if first.Bad? {
      return Bad;
    }
    var count := ReadField(bytes, first.next, 4, e.count, PrintReference(e.material));
    if count.Bad? {
      return Bad;
    }
    if count.value == 0 || count.value % 3 != 0 || first.value > indices || count.value > indices - first.value {
      return Bad;
    }
    NoRest(PrintReference(e.material));
    var material := ReadReference(bytes, count.next, e.material, []);
    if material.Bad? {
      return Bad;
    }
    var p := Primitive(first.value, count.value, material.value);
    StartsSplit(bytes, first.next, Le(p.count, 4), PrintReference(p.material));
    StartsSplit(bytes, offset, Le(p.first, 4), Le(p.count, 4) + PrintReference(p.material));
    return Ok(p, material.next);
  }

  ghost predicate PrimitivesWritten(bytes: seq<Byte>, offset: nat, count: nat, e: seq<Primitive>) {
    |e| == count && PrimitivesTyped(e) && Starts(bytes, offset, PrintAll(PrintPrimitive, e))
  }

  method ReadPrimitives(bytes: seq<Byte>, offset: nat, count: nat, indices: nat, ghost e: seq<Primitive>)
    returns (r: Read<seq<Primitive>>)
    requires offset <= |bytes|
    ensures r.Ok? ==> PrimitivesOk(r.value, indices) && PrimitivesWritten(bytes, offset, count, r.value)
                      && r.next == offset + |PrintAll(PrintPrimitive, r.value)| <= |bytes|
    ensures PrimitivesWritten(bytes, offset, count, e) ==>
              r == if PrimitivesOk(e, indices) then Ok(e, offset + |PrintAll(PrintPrimitive, e)|) else Bad
  {
    var all: seq<Primitive>, next := [], offset;
    ghost var expected := PrimitivesWritten(bytes, offset, count, e);
    StartsNothing(bytes, offset);
    hide Starts, PrintPrimitive, PrimitiveOk, PrimitiveTyped;
    for k: nat := 0 to count
      invariant |all| == k && PrimitivesOk(all, indices) && PrimitivesTyped(all)
      invariant Starts(bytes, offset, PrintAll(PrintPrimitive, all))
                && next == offset + |PrintAll(PrintPrimitive, all)| <= |bytes|
      invariant expected ==> all == e[..k]
    {
      hide PrintAll;
      ghost var due := if expected then e[k] else Primitive(0, 0, None);
      if expected {
        PrimitiveStands(bytes, offset, count, e, k);
        PrimitivesMore(e, k, indices);
      }
      var p := ReadPrimitive(bytes, next, indices, due);
      if p.Bad? {
        return Bad;
      }
      ListGrows(bytes, offset, PrintPrimitive, all, p.value);
      all, next := all + [p.value], p.next;
    }
    assert expected ==> e[..count] == e;
    return Ok(all, next);
  }

  lemma PrimitiveStands(bytes: seq<Byte>, offset: nat, count: nat, e: seq<Primitive>, k: nat)
    requires PrimitivesWritten(bytes, offset, count, e) && k < count
    ensures PrimitiveTyped(e[k]) && Starts(bytes, offset + |PrintAll(PrintPrimitive, e[..k])|, PrintPrimitive(e[k]))
  {
    ElementStarts(bytes, offset, PrintPrimitive, e, k);
  }

  lemma PartsTyped(v: Mesh)
    requires MeshTyped(v) && MeshOk(v)
    ensures PrimitivesTyped(Parts(v)) && |v.vertices| < Pow256(4) && |v.indices| < Pow256(4) && |Parts(v)| < Pow256(4)
  {
    FourBytes();
  }

  /** What remains behind the indices: primitives and, in the collision version, one identifier. */
  method DecodeTail(bytes: seq<Byte>, offset: nat, version: nat, parts: nat, indices: nat, ghost e: Mesh)
    returns (r: Option<(seq<Primitive>, Option<AssetId>)>)
    requires offset <= |bytes| && (version == PLAIN_VERSION || version == COLLISION_VERSION)
    ensures r.Some? ==>
              && |r.value.0| == parts && PrimitivesTyped(r.value.0) && PrimitivesOk(r.value.0, indices)
              && ReferenceTyped(r.value.1) && ReferenceOk(r.value.1)
                 && (r.value.1.Some? <==> version == COLLISION_VERSION)
              && bytes[offset..] == PrintAll(PrintPrimitive, r.value.0)
                 + (if r.value.1.Some? then PrintId(r.value.1.value) else [])
    ensures VersionOf(e) == version && |Parts(e)| == parts && PrimitivesTyped(Parts(e))
            && PrimitivesOk(Parts(e), indices)
            && ReferenceTyped(e.collision) && ReferenceOk(e.collision) && bytes[offset..] == PrintTail(e)
            ==> r == Some((Parts(e), e.collision))
  {
    hide Starts, Le, Pow256, PrintAll, PrintPrimitive, PrimitivesOk, PrimitivesTyped, PrintId, IdTyped, Parts;
    ghost var id := if e.collision.Some? then PrintId(e.collision.value) else [];
    WholeRest(bytes, offset, PrintTail(e));
    StartsSplit(bytes, offset, PrintAll(PrintPrimitive, Parts(e)), id);
    var primitives := ReadPrimitives(bytes, offset, parts, indices, Parts(e));
    if primitives.Bad? {
      return None;
    }
    var next := primitives.next;
    var collision: Option<AssetId> := None;
    if version == COLLISION_VERSION {
      ghost var due := if e.collision.Some? then e.collision.value else AssetId(0, 0);
      NoRest(PrintId(due));
      IdLength(due);
      var read := ReadId(bytes, next, due, []);
      if read.Bad? {
        return None;
      }
      IdLength(read.value);
      collision, next := Some(read.value), read.next;
    }
    if next != |bytes| {
      return None;
    }
    TailJoin(bytes, offset, primitives.value, collision);
    return Some((primitives.value, collision));
  }

  lemma TailJoin(bytes: seq<Byte>, offset: nat, s: seq<Primitive>, collision: Option<AssetId>)
    requires Starts(bytes, offset, PrintAll(PrintPrimitive, s))
    requires var at := offset + |PrintAll(PrintPrimitive, s)|;
             if collision.Some? then Starts(bytes, at, PrintId(collision.value))
               && at + 16 == |bytes| else at == |bytes|
    ensures bytes[offset..] == PrintAll(PrintPrimitive, s) + (if collision.Some? then PrintId(collision.value) else [])
  {
    hide PrintAll, Starts, PrintPrimitive, Le;
    StartsNothing(bytes, offset + |PrintAll(PrintPrimitive, s)|);
    var id := if collision.Some? then PrintId(collision.value) else [];
    StartsSplit(bytes, offset, PrintAll(PrintPrimitive, s), id);
    WholeRest(bytes, offset, PrintAll(PrintPrimitive, s) + id);
  }

  /** The numbers of a mesh, and the offset behind them. */
  datatype Numbers = Numbers(bounds: Row, vertices: seq<Row>, indices: seq<nat>)

  function PrintNumbers(v: Numbers): seq<Byte> {
    PrintRow(v.bounds) + (PrintAll(PrintRow, v.vertices) + PrintAll(PrintWord(4), v.indices))
  }

  ghost predicate NumbersFit(v: Numbers, flatNormal: Row -> bool) {
    FiniteRow(v.bounds) && Good(v.vertices, (before, row) => !flatNormal(row)) && Below(v.indices, |v.vertices|)
  }

  predicate NumbersTyped(v: Numbers, vertices: nat, indices: nat) {
    && Shaped(v.bounds, 6) && ShapedRows(v.vertices, 12) && |v.vertices| == vertices
    && |v.indices| == indices && Below(v.indices, Pow256(4))
  }

  method ReadNumbers(bytes: seq<Byte>, offset: nat, vertices: nat, indices: nat, flatNormal: Row -> bool,
                     ghost e: Numbers)
    returns (r: Read<Numbers>)
    requires offset <= |bytes|
    ensures r.Ok? ==> NumbersTyped(r.value, vertices, indices) && NumbersFit(r.value, flatNormal)
                      && Starts(bytes, offset, PrintNumbers(r.value))
                         && r.next == offset + |PrintNumbers(r.value)| <= |bytes|
    ensures NumbersTyped(e, vertices, indices) && Starts(bytes, offset, PrintNumbers(e)) ==>
              r == if NumbersFit(e, flatNormal) then Ok(e, offset + |PrintNumbers(e)|) else Bad
  {
    hide Starts, Pow256, PrintAll, PrintRow, PrintWord, Good, FiniteRow, Shaped, ShapedRows;
    ghost var rows, words := PrintAll(PrintRow, e.vertices), PrintAll(PrintWord(4), e.indices);
    StartsSplit(bytes, offset, PrintRow(e.bounds), rows + words);
    StartsSplit(bytes, offset + |PrintRow(e.bounds)|, rows, words);
    var bounds := ReadRow(bytes, offset, 6, e.bounds);
    if bounds.Bad? {
      return Bad;
    }
    var accept := (before: seq<Row>, row: Row) => !flatNormal(row);
    var vs := ReadRows(bytes, bounds.next, vertices, 12, accept, e.vertices);
    if vs.Bad? {
      return Bad;
    }
    var ws := ReadWords(bytes, vs.next, indices, 4, v => v < vertices, e.indices);
    AllBelow(e.indices, vertices);
    if ws.Bad? {
      return Bad;
    }
    AllBelow(ws.value, vertices);
    var v := Numbers(bounds.value, vs.value, ws.value);
    NumbersJoin(bytes, offset, v);
    return Ok(v, ws.next);
  }

  lemma AllBelow(s: seq<nat>, limit: nat)
    ensures All(s, v => v < limit) <==> Below(s, limit)
  {}

  lemma NumbersJoin(bytes: seq<Byte>, offset: nat, v: Numbers)
    requires Starts(bytes, offset, PrintRow(v.bounds))
             && Starts(bytes, offset + |PrintRow(v.bounds)|, PrintAll(PrintRow, v.vertices))
    requires Starts(bytes, offset + |PrintRow(v.bounds)| + |PrintAll(PrintRow, v.vertices)|,
                    PrintAll(PrintWord(4), v.indices))
    ensures Starts(bytes, offset, PrintNumbers(v)) && offset + |PrintNumbers(v)| <= |bytes|
    ensures |PrintNumbers(v)| == |PrintRow(v.bounds)| + |PrintAll(PrintRow, v.vertices)|
            + |PrintAll(PrintWord(4), v.indices)|
  {
    hide PrintAll, PrintRow;
    var a, b, c := PrintRow(v.bounds), PrintAll(PrintRow, v.vertices), PrintAll(PrintWord(4), v.indices);
    StartsSplit(bytes, offset + |a|, b, c);
    StartsSplit(bytes, offset, a, b + c);
  }

  lemma BodyPieces(v: Mesh)
    ensures PrintBody(v) == PrintNumbers(Numbers(v.bounds, v.vertices, v.indices)) + PrintTail(v)
  {
    hide PrintAll, PrintRow, PrintTail;
    Append3([], PrintRow(v.bounds), PrintAll(PrintRow, v.vertices), PrintAll(PrintWord(4), v.indices) + PrintTail(v));
  }

  /** Decodes a static mesh. On the print of an accepted mesh it succeeds exactly when the numbers fit, with the
      canonical mesh. */
  method DecodeMesh(bytes: seq<Byte>, offset: nat, version: nat, flatNormal: Row -> bool, ghost e: Mesh)
    returns (r: Option<Mesh>)
    requires offset <= |bytes| && (version == FIRST_VERSION || version == PLAIN_VERSION || version == COLLISION_VERSION)
    ensures r.Some? && version != FIRST_VERSION ==>
              && MeshTyped(r.value) && MeshOk(r.value) && MeshFits(r.value, flatNormal) && VersionOf(r.value) == version
              && Canonical(r.value) == r.value && bytes[offset..] == PrintMesh(r.value)
    ensures MeshTyped(e) && MeshOk(e) && version == VersionOf(e) && bytes[offset..] == PrintMesh(e) ==>
              r == if MeshFits(e, flatNormal) then Some(Canonical(e)) else None
  {
    hide Starts, Le, PrintBody, PrintTail, NumbersFit, NumbersTyped, PrimitivesTyped, PrimitivesOk, MeshFits,
      PrintNumbers;
    ghost var expected := MeshTyped(e) && MeshOk(e) && version == VersionOf(e) && bytes[offset..] == PrintMesh(e);
    if expected {
      PartsTyped(e);
    }
    hide Pow256;
    WholeRest(bytes, offset, PrintMesh(e));
    var vertices := ReadField(bytes, offset, 4, |e.vertices|, Le(|e.indices|, 4) + (Le(|Parts(e)|, 4) + PrintBody(e)));
    if vertices.Bad? {
      return None;
    }
    var indices := ReadField(bytes, vertices.next, 4, |e.indices|, Le(|Parts(e)|, 4) + PrintBody(e));
    if indices.Bad? {
      return None;
    }
    var parts := ReadField(bytes, indices.next, 4, |Parts(e)|, PrintBody(e));
    if parts.Bad? {
      return None;
    }
    if vertices.value == 0 || vertices.value > MAX_VERTICES || indices.value == 0 || indices.value > MAX_MESH_INDICES
       || parts.value == 0 || parts.value > MAX_SUBMESHES {
      return None;
    }
    WholeRest(bytes, parts.next, PrintBody(e));
    hide Parts;
    r := DecodeMeshBody(bytes, parts.next, version, vertices.value, indices.value, parts.value, flatNormal, e);
    if r.Some? && version != FIRST_VERSION {
      MeshJoin(bytes, offset, r.value);
    }
  }

  lemma MeshJoin(bytes: seq<Byte>, offset: nat, v: Mesh)
    requires offset + 12 <= |bytes| && bytes[offset + 12..] == PrintBody(v)
    requires Starts(bytes, offset, Le(|v.vertices|, 4)) && Starts(bytes, offset + 4, Le(|v.indices|, 4))
             && Starts(bytes, offset + 8, Le(|Parts(v)|, 4))
    ensures bytes[offset..] == PrintMesh(v)
  {
    hide PrintBody, Parts;
    var a, b, c := Le(|v.vertices|, 4), Le(|v.indices|, 4), Le(|Parts(v)|, 4);
    WholeRest(bytes, offset + 12, PrintBody(v));
    StartsSplit(bytes, offset + 8, c, PrintBody(v));
    StartsSplit(bytes, offset + 4, b, c + PrintBody(v));
    StartsSplit(bytes, offset, a, b + (c + PrintBody(v)));
    WholeRest(bytes, offset, PrintMesh(v));
  }

  method DecodeMeshBody(bytes: seq<Byte>, offset: nat, version: nat, vertices: nat, indices: nat, parts: nat,
                        flatNormal: Row -> bool, ghost e: Mesh) returns (r: Option<Mesh>)
    requires offset <= |bytes| && SizesOk(vertices, indices, parts)
    requires version == FIRST_VERSION || version == PLAIN_VERSION || version == COLLISION_VERSION
    ensures r.Some? && version != FIRST_VERSION ==>
              && MeshTyped(r.value) && MeshOk(r.value) && MeshFits(r.value, flatNormal) && VersionOf(r.value) == version
              && Canonical(r.value) == r.value && |r.value.vertices| == vertices && |r.value.indices| == indices
                 && |Parts(r.value)| == parts
              && bytes[offset..] == PrintBody(r.value)
    ensures MeshTyped(e) && MeshOk(e) && version == VersionOf(e) && |e.vertices| == vertices && |e.indices| == indices
            && |Parts(e)| == parts
            && bytes[offset..] == PrintBody(e) ==>
              r == if MeshFits(e, flatNormal) then Some(Canonical(e)) else None
  {
    hide Starts, Le, Pow256, PrintAll, PrintPrimitive, PrintNumbers, PrintTail, PrimitivesTyped, PrimitivesOk, Good,
      FiniteRow, ShapedRows, Shaped, Below, PrintBody;
    ghost var due := Numbers(e.bounds, e.vertices, e.indices);
    BodyPieces(e);
    WholeRest(bytes, offset, PrintNumbers(due) + PrintTail(e));
    StartsSplit(bytes, offset, PrintNumbers(due), PrintTail(e));
    var numbers := ReadNumbers(bytes, offset, vertices, indices, flatNormal, due);
    if numbers.Bad? {
      return None;
    }
    var n := numbers.value;
    if version == FIRST_VERSION {
      if parts != 1 || numbers.next != |bytes| {
        return None;
      }
      return Some(Mesh(n.vertices, n.indices, n.bounds, parts, Some([Primitive(0, indices, None)]), None));
    }
    WholeRest(bytes, numbers.next, PrintTail(e));
    if MeshTyped(e) && MeshOk(e) {
      PartsTyped(e);
    }
    var tail := DecodeTail(bytes, numbers.next, version, parts, indices, e);
    if tail.None? {
      return None;
    }
    var v := Mesh(n.vertices, n.indices, n.bounds, parts, Some(tail.value.0), tail.value.1);
    BodyPieces(v);
    BodyJoins(bytes, offset, v, n);
    return Some(v);
  }

  lemma BodyJoins(bytes: seq<Byte>, offset: nat, v: Mesh, n: Numbers)
    requires n == Numbers(v.bounds, v.vertices, v.indices) && Starts(bytes, offset, PrintNumbers(n))
    requires v.primitives.Some? && bytes[offset + |PrintNumbers(n)|..]
             == PrintAll(PrintPrimitive, v.primitives.value)
               + (if v.collision.Some? then PrintId(v.collision.value) else [])
    ensures bytes[offset..] == PrintNumbers(n) + PrintTail(v)
  {
    hide PrintNumbers, PrintAll, PrintId;
    WholeRest(bytes, offset + |PrintNumbers(n)|, PrintTail(v));
    StartsSplit(bytes, offset, PrintNumbers(n), PrintTail(v));
    WholeRest(bytes, offset, PrintNumbers(n) + PrintTail(v));
  }
}
