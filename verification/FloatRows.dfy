/** Floating-point values as their 32-bit patterns, and lists of fixed-width rows of them. */
module FloatRows {
  import opened ByteCodec

  /** A row of 32-bit patterns: a vector, a vertex, a key. */
  type Row = seq<nat>

  /** Neither infinite nor not-a-number: the exponent field is not all ones. */
  predicate Finite(bits: nat) {
    bits / 0x80_0000 % 256 != 255
  }

  function Pow2(k: int): (p: real)
    ensures p > 0.0
    decreases if k < 0 then -k else k
  {
    if k == 0 then 1.0 else if k > 0 then 2.0 * Pow2(k - 1) else Pow2(k + 1) / 2.0
  }

  /** The real number that a finite pattern stands for. */
  function Value(bits: nat): real {
    var exponent, fraction := bits / 0x80_0000 % 256, bits % 0x80_0000;
    var magnitude := if exponent == 0 then fraction as real * Pow2(-149)
                     else (0x80_0000 + fraction) as real * Pow2(exponent - 150);
    if bits / 0x8000_0000 % 2 == 1 then -magnitude else magnitude
  }

  function PrintRow(row: Row): seq<Byte> {
    PrintAll(PrintWord(4), row)
  }

  predicate Shaped(row: Row, width: nat) {
    |row| == width && Below(row, Pow256(4))
  }

  predicate FiniteRow(row: Row) {
    All(row, Finite)
  }

  predicate ShapedRows(rows: seq<Row>, width: nat) {
    forall k: nat :: k < |rows| ==> Shaped(rows[k], width)
  }

  /** Every row is finite and acceptable after the ones before it. */
  ghost predicate Good(rows: seq<Row>, accept: (seq<Row>, Row) -> bool) {
    forall k: nat :: k < |rows| ==> FiniteRow(rows[k]) && accept(rows[..k], rows[k])
  }

  lemma GoodMore(rows: seq<Row>, row: Row, accept: (seq<Row>, Row) -> bool)
    ensures Good(rows + [row], accept) <==> Good(rows, accept) && FiniteRow(row) && accept(rows, row)
  {
    var more := rows + [row];
    assert more[..|rows|] == rows && more[|rows|] == row;
    forall k: nat | k < |rows| ensures more[..k] == rows[..k] && more[k] == rows[k] {}
  }

  method ReadRow(bytes: seq<Byte>, offset: nat, width: nat, ghost e: Row) returns (r: Read<Row>)
    requires offset <= |bytes|
    ensures r.Ok? ==> Shaped(r.value, width) && FiniteRow(r.value) && Starts(bytes, offset, PrintRow(r.value))
                      && r.next == offset + |PrintRow(r.value)| <= |bytes|
    ensures Shaped(e, width) && Starts(bytes, offset, PrintRow(e)) ==>
              r == if FiniteRow(e) then Ok(e, offset + |PrintRow(e)|) else Bad
  {
    r := ReadWords(bytes, offset, width, 4, Finite, e);
  }

  /** The list `e`, of `count` rows, is what was written at `offset`. */
  ghost predicate RowsWritten(bytes: seq<Byte>, offset: nat, count: nat, width: nat, e: seq<Row>) {
    |e| == count && ShapedRows(e, width) && Starts(bytes, offset, PrintAll(PrintRow, e))
  }

  /** Reads `count` rows. Where a list was written it returns that list, exactly when the list is good. */
  method ReadRows(bytes: seq<Byte>, offset: nat, count: nat, width: nat, accept: (seq<Row>, Row) -> bool,
                  ghost e: seq<Row>)
    returns (r: Read<seq<Row>>)
    requires offset <= |bytes|
    ensures r.Ok? ==> Good(r.value, accept) && RowsWritten(bytes, offset, count, width, r.value)
                      && r.next == offset + |PrintAll(PrintRow, r.value)| <= |bytes|
    ensures RowsWritten(bytes, offset, count, width, e) ==>
              r == if Good(e, accept) then Ok(e, offset + |PrintAll(PrintRow, e)|) else Bad
  {
    var rows: seq<Row>, next := [], offset;
    ghost var expected := RowsWritten(bytes, offset, count, width, e);
    StartsNothing(bytes, offset);
    hide Starts, PrintRow, FiniteRow, Shaped;
    for k: nat := 0 to count
      invariant |rows| == k && Good(rows, accept) && ShapedRows(rows, width)
      invariant Starts(bytes, offset, PrintAll(PrintRow, rows))
                && next == offset + |PrintAll(PrintRow, rows)| <= |bytes|
      invariant expected ==> rows == e[..k]
    {
      hide PrintAll;
      ghost var due: Row := if expected then e[k] else [];
      if expected {
        RowStands(bytes, offset, count, width, e, k);
      }
      var row := ReadRow(bytes, next, width, due);
      if expected {
        GoodStep(e, k, accept);
      }
      if row.Bad? {
        return Bad;
      }
      GoodMore(rows, row.value, accept);
      if !accept(rows, row.value) {
        return Bad;
      }
      hide Good;
      ListGrows(bytes, offset, PrintRow, rows, row.value);
      rows, next := rows + [row.value], row.next;
    }
    assert expected ==> e[..count] == e;
    return Ok(rows, next);
  }

  /** A bad row makes the whole list bad. */
  lemma GoodStep(e: seq<Row>, k: nat, accept: (seq<Row>, Row) -> bool)
    requires k < |e|
    ensures Good(e, accept) ==> FiniteRow(e[k]) && accept(e[..k], e[k])
    ensures e[..k + 1] == e[..k] + [e[k]]
  {}

  lemma RowStands(bytes: seq<Byte>, offset: nat, count: nat, width: nat, e: seq<Row>, k: nat)
    requires RowsWritten(bytes, offset, count, width, e) && k < count
    ensures Shaped(e[k], width) && Starts(bytes, offset + |PrintAll(PrintRow, e[..k])|, PrintRow(e[k]))
  {
    ElementStarts(bytes, offset, PrintRow, e, k);
  }

  method AppendRow(out: seq<Byte>, row: Row) returns (r: seq<Byte>)
    ensures r == out + PrintRow(row)
  {
    r := AppendWords(out, row, 4);
  }

  /** Appends rows, checking each against the ones before it; a bad row stops the encoding. */
  method AppendRows(out: seq<Byte>, rows: seq<Row>, accept: (seq<Row>, Row) -> bool, checked: bool)
    returns (ok: bool, r: seq<Byte>)
    ensures ok <==> !checked || Good(rows, accept)
    ensures ok ==> r == out + PrintAll(PrintRow, rows)
  {
    r := out;
    for k: nat := 0 to |rows|
      invariant checked ==> Good(rows[..k], accept)
      invariant r == out + PrintAll(PrintRow, rows[..k])
    {
      hide PrintAll, PrintRow, FiniteRow, Good;
      GoodStep(rows, k, accept);
      GoodMore(rows[..k], rows[k], accept);
      if checked && !(FiniteRow(rows[k]) && accept(rows[..k], rows[k])) {
        return false, out;
      }
      PrintAllNext(PrintRow, rows[..k], rows[k]);
      r := AppendRow(r, rows[k]);
      Append2(out, PrintAll(PrintRow, rows[..k]), PrintRow(rows[k]));
    }
    assert rows[..|rows|] == rows;
    return true, r;
  }
}
