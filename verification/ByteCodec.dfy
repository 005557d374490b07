/** Little-endian words and lists of them: how they are appended, and read back at a moving offset. */
module ByteCodec {
  import opened Arithmetic

  type Byte = x: nat | x < 256

  /** What a reader returns: the value and the offset behind it, or nothing. */
  datatype Read<T> = Ok(value: T, next: nat) | Bad

  function Pow256(n: nat): (p: nat)
    ensures p > 0
  {
    if n == 0 then 1 else 256 * Pow256(n - 1)
  }

  /** The low `n` bytes of `v`, lowest first. */
  function Le(v: nat, n: nat): (s: seq<Byte>)
    ensures |s| == n
  {
    if n == 0 then [] else [v % 256] + Le(v / 256, n - 1)
  }

  function FromLe(s: seq<Byte>): nat {
    if s == [] then 0 else s[0] + 256 * FromLe(s[1..])
  }

  lemma {:induction false} FromLeLe(v: nat, n: nat)
    requires v < Pow256(n)
    ensures FromLe(Le(v, n)) == v
  {
    if n > 0 {
      FromLeLe(v / 256, n - 1);
      assert Le(v, n)[1..] == Le(v / 256, n - 1);
    }
  }

  lemma {:induction false} LeFromLe(s: seq<Byte>)
    ensures FromLe(s) < Pow256(|s|) && Le(FromLe(s), |s|) == s
  {
    if s != [] {
      var v, rest := FromLe(s), FromLe(s[1..]);
      LeFromLe(s[1..]);
      DivisionIsUnique(v, 256, rest, s[0]);
      assert Le(v, |s|) == [v % 256] + Le(v / 256, |s| - 1);
      assert s == [s[0]] + s[1..];
    }
  }

  lemma {:induction false} FromLeAppend(s: seq<Byte>, b: Byte)
    ensures FromLe(s + [b]) == FromLe(s) + b * Pow256(|s|)
  {
    if s == [] {
      assert [b][1..] == [];
    } else {
      FromLeAppend(s[1..], b);
      assert (s + [b])[1..] == s[1..] + [b];
      Shift(b, Pow256(|s| - 1));
    }
  }

  lemma Shift(b: nat, p: nat)
    ensures 256 * (b * p) == b * (256 * p)
  {}

  /** `s` stands in `bytes` at `offset`. */
  ghost predicate Starts(bytes: seq<Byte>, offset: nat, s: seq<Byte>) {
    offset + |s| <= |bytes| && bytes[offset..offset + |s|] == s
  }

  lemma StartsSplit(bytes: seq<Byte>, offset: nat, a: seq<Byte>, b: seq<Byte>)
    ensures Starts(bytes, offset, a + b) <==> Starts(bytes, offset, a) && Starts(bytes, offset + |a|, b)
  {
    if offset + |a| + |b| <= |bytes| {
      var whole := bytes[offset..offset + |a| + |b|];
      assert whole[..|a|] == bytes[offset..offset + |a|] && whole[|a|..] == bytes[offset + |a|..offset + |a| + |b|];
      assert whole == whole[..|a|] + whole[|a|..];
      assert (a + b)[..|a|] == a && (a + b)[|a|..] == b;
    }
  }

  lemma NoRest(s: seq<Byte>)
    ensures s + [] == s
  {}

  lemma StartsNothing(bytes: seq<Byte>, offset: nat)
    ensures Starts(bytes, offset, []) <==> offset <= |bytes|
  {}

  method AppendWord(out: seq<Byte>, v: nat, n: nat) returns (r: seq<Byte>)
    ensures r == out + Le(v, n)
  {
    r := out;
    var rest := v;
    for i := 0 to n
      invariant r + Le(rest, n - i) == out + Le(v, n)
    {
      assert r + [rest % 256] + Le(rest / 256, n - i - 1) == r + Le(rest, n - i);
      r, rest := r + [rest % 256], rest / 256;
    }
    assert r + Le(rest, 0) == r;
  }

  method ReadWord(bytes: seq<Byte>, offset: nat, n: nat) returns (r: Read<nat>)
    ensures r.Ok? <==> offset + n <= |bytes|
    ensures r.Ok? ==> r.next == offset + n && r.value < Pow256(n) && Starts(bytes, offset, Le(r.value, n))
  {
    if offset > |bytes| || |bytes| - offset < n {
      return Bad;
    }
    var value: nat, place: nat := 0, 1;
    for i := 0 to n
      invariant value == FromLe(bytes[offset..offset + i]) && place == Pow256(i)
    {
      assert bytes[offset..offset + i + 1] == bytes[offset..offset + i] + [bytes[offset + i]];
      FromLeAppend(bytes[offset..offset + i], bytes[offset + i]);
      value, place := value + bytes[offset + i] * place, 256 * place;
    }
    LeFromLe(bytes[offset..offset + n]);
    return Ok(value, offset + n);
  }

  /** Where a word was written, that word is read. */
  lemma WordRead(bytes: seq<Byte>, offset: nat, n: nat, v: nat, w: nat)
    requires Starts(bytes, offset, Le(v, n)) && Starts(bytes, offset, Le(w, n)) && v < Pow256(n) && w < Pow256(n)
    ensures v == w
  {
    FromLeLe(v, n);
    FromLeLe(w, n);
  }

  // Lists.

  function PrintAll<T>(form: T -> seq<Byte>, s: seq<T>): seq<Byte> {
    if s == [] then [] else form(s[0]) + PrintAll(form, s[1..])
  }

  lemma {:induction false} PrintAllJoin<T>(form: T -> seq<Byte>, a: seq<T>, b: seq<T>)
    ensures PrintAll(form, a + b) == PrintAll(form, a) + PrintAll(form, b)
  {
    if a == [] {
      assert a + b == b;
    } else {
      assert (a + b)[1..] == a[1..] + b;
      PrintAllJoin(form, a[1..], b);
    }
  }

  lemma PrintAllOne<T>(form: T -> seq<Byte>, x: T)
    ensures PrintAll(form, [x]) == form(x)
  {
    assert PrintAll(form, [x][1..]) == [];
  }

  lemma PrintAllNext<T>(form: T -> seq<Byte>, s: seq<T>, x: T)
    ensures PrintAll(form, s + [x]) == PrintAll(form, s) + form(x)
  {
    PrintAllJoin(form, s, [x]);
    PrintAllOne(form, x);
  }

  /** Within a printed list, the element after the first `k` stands behind the print of those. */
  lemma ElementStarts<T>(bytes: seq<Byte>, offset: nat, form: T -> seq<Byte>, s: seq<T>, k: nat)
    requires Starts(bytes, offset, PrintAll(form, s)) && k < |s|
    ensures Starts(bytes, offset + |PrintAll(form, s[..k])|, form(s[k]))
  {
    var a, b := s[..k], s[k + 1..];
    assert s == a + ([s[k]] + b);
    PrintAllJoin(form, a, [s[k]] + b);
    PrintAllJoin(form, [s[k]], b);
    PrintAllOne(form, s[k]);
    StartsSplit(bytes, offset, PrintAll(form, a), form(s[k]) + PrintAll(form, b));
    StartsSplit(bytes, offset + |PrintAll(form, a)|, form(s[k]), PrintAll(form, b));
  }

  lemma ListGrows<T>(bytes: seq<Byte>, offset: nat, form: T -> seq<Byte>, s: seq<T>, x: T)
    requires Starts(bytes, offset, PrintAll(form, s)) && Starts(bytes, offset + |PrintAll(form, s)|, form(x))
    ensures Starts(bytes, offset, PrintAll(form, s + [x]))
    ensures |PrintAll(form, s + [x])| == |PrintAll(form, s)| + |form(x)|
  {
    PrintAllNext(form, s, x);
    StartsSplit(bytes, offset, PrintAll(form, s), form(x));
  }

  // Words in a row.

  function PrintWord(n: nat): nat -> seq<Byte> {
    v => Le(v, n)
  }

  predicate Below(s: seq<nat>, limit: nat) {
    forall k: nat :: k < |s| ==> s[k] < limit
  }

  method AppendWords(out: seq<Byte>, s: seq<nat>, n: nat) returns (r: seq<Byte>)
    ensures r == out + PrintAll(PrintWord(n), s)
  {
    r := out;
    for k: nat := 0 to |s|
      invariant r == out + PrintAll(PrintWord(n), s[..k])
    {
      assert s[..k + 1] == s[..k] + [s[k]];
      PrintAllNext(PrintWord(n), s[..k], s[k]);
      r := AppendWord(r, s[k], n);
    }
    assert s[..|s|] == s;
  }

  predicate All(s: seq<nat>, accept: nat -> bool) {
    forall k: nat :: k < |s| ==> accept(s[k])
  }

  /** The list `e`, of `count` words, is what was written at `offset`. */
  ghost predicate Written(bytes: seq<Byte>, offset: nat, count: nat, n: nat, e: seq<nat>) {
    |e| == count && Below(e, Pow256(n)) && Starts(bytes, offset, PrintAll(PrintWord(n), e))
  }

  /** Reads `count` acceptable words. Where a list was written it returns that list, exactly when all of it is
      acceptable. */
  method ReadWords(bytes: seq<Byte>, offset: nat, count: nat, n: nat, accept: nat -> bool, ghost e: seq<nat>)
    returns (r: Read<seq<nat>>)
    requires offset <= |bytes|
    ensures r.Ok? ==> All(r.value, accept) && Written(bytes, offset, count, n, r.value)
                      && r.next == offset + |PrintAll(PrintWord(n), r.value)|
    ensures Written(bytes, offset, count, n, e) ==>
              r == if All(e, accept) then Ok(e, offset + |PrintAll(PrintWord(n), e)|) else Bad
  {
    var values: seq<nat>, next := [], offset;
    ghost var form, expected := PrintWord(n), Written(bytes, offset, count, n, e);
    StartsNothing(bytes, offset);
    hide Le, Starts, PrintWord;
    for k: nat := 0 to count
      invariant |values| == k && All(values, accept) && Below(values, Pow256(n))
      invariant Starts(bytes, offset, PrintAll(form, values)) && next == offset + |PrintAll(form, values)|
      invariant expected ==> values == e[..k]
    {
      hide PrintAll;
      if expected {
        WordStands(bytes, offset, count, n, e, k);
      }
      var word := ReadWord(bytes, next, n);
      if word.Ok? && expected {
        WordRead(bytes, next, n, word.value, e[k]);
      }
      if word.Bad? || !accept(word.value) {
        return Bad;
      }
      WordGrows(bytes, offset, n, values, word.value);
      values, next := values + [word.value], word.next;
    }
    assert expected ==> e[..count] == e;
    return Ok(values, next);
  }

  lemma WordStands(bytes: seq<Byte>, offset: nat, count: nat, n: nat, e: seq<nat>, k: nat)
    requires Written(bytes, offset, count, n, e) && k < count
    ensures var at := offset + |PrintAll(PrintWord(n), e[..k])|;
            at + n <= |bytes| && e[k] < Pow256(n) && Starts(bytes, at, Le(e[k], n))
  {
    ElementStarts(bytes, offset, PrintWord(n), e, k);
  }

  lemma WordGrows(bytes: seq<Byte>, offset: nat, n: nat, s: seq<nat>, v: nat)
    requires Starts(bytes, offset, PrintAll(PrintWord(n), s))
             && Starts(bytes, offset + |PrintAll(PrintWord(n), s)|, Le(v, n))
    ensures Starts(bytes, offset, PrintAll(PrintWord(n), s + [v]))
    ensures |PrintAll(PrintWord(n), s + [v])| == |PrintAll(PrintWord(n), s)| + n
  {
    ListGrows(bytes, offset, PrintWord(n), s, v);
  }

  /** Reads a word; where it was written with more behind it, the rest starts where the reader stops. */
  method ReadField(bytes: seq<Byte>, offset: nat, n: nat, ghost e: nat, ghost rest: seq<Byte>) returns (r: Read<nat>)
    ensures r.Ok? <==> offset + n <= |bytes|
    ensures r.Ok? ==> r.next == offset + n <= |bytes| && r.value < Pow256(n) && Starts(bytes, offset, Le(r.value, n))
    ensures e < Pow256(n) && Starts(bytes, offset, Le(e, n) + rest) ==>
            r == Ok(e, offset + n) && Starts(bytes, offset + n, rest)
  {
    r := ReadWord(bytes, offset, n);
    StartsSplit(bytes, offset, Le(e, n), rest);
    if e < Pow256(n) && Starts(bytes, offset, Le(e, n) + rest) {
      WordFits(bytes, offset, n, e);
      WordRead(bytes, offset, n, r.value, e);
    }
  }

  lemma WordFits(bytes: seq<Byte>, offset: nat, n: nat, v: nat)
    requires Starts(bytes, offset, Le(v, n))
    ensures offset + n <= |bytes|
  {}

  /** One byte in front of the rest. */
  lemma ByteStarts(bytes: seq<Byte>, offset: nat, b: Byte, rest: seq<Byte>)
    ensures Starts(bytes, offset, [b] + rest)
            <==> offset < |bytes| && bytes[offset] == b && Starts(bytes, offset + 1, rest)
  {
    StartsSplit(bytes, offset, [b], rest);
    if offset < |bytes| {
      assert bytes[offset..offset + 1] == [bytes[offset]];
    }
  }

  /** The rest of the bytes, where they are exactly what was written. */
  lemma WholeRest(bytes: seq<Byte>, offset: nat, s: seq<Byte>)
    ensures Starts(bytes, offset, s) && offset + |s| == |bytes| <==> offset <= |bytes| && bytes[offset..] == s
  {
    if offset + |s| == |bytes| {
      assert bytes[offset..] == bytes[offset..offset + |s|];
    }
  }

  // Appending piece by piece appends the whole.

  lemma Append2(out: seq<Byte>, a: seq<Byte>, b: seq<Byte>)
    ensures out + a + b == out + (a + b)
  {}

  lemma Append3(out: seq<Byte>, a: seq<Byte>, b: seq<Byte>, c: seq<Byte>)
    ensures out + a + b + c == out + (a + (b + c))
  {
    Append2(out, a, b + c);
    Append2(out + a, b, c);
  }

  lemma Append4(out: seq<Byte>, a: seq<Byte>, b: seq<Byte>, c: seq<Byte>, d: seq<Byte>)
    ensures out + a + b + c + d == out + (a + (b + (c + d)))
  {
    Append2(out, a, b + (c + d));
    Append3(out + a, b, c, d);
  }

  lemma Append5(out: seq<Byte>, a: seq<Byte>, b: seq<Byte>, c: seq<Byte>, d: seq<Byte>, e: seq<Byte>)
    ensures out + a + b + c + d + e == out + (a + (b + (c + (d + e))))
  {
    Append2(out, a, b + (c + (d + e)));
    Append4(out + a, b, c, d, e);
  }

  lemma Append6(out: seq<Byte>, a: seq<Byte>, b: seq<Byte>, c: seq<Byte>, d: seq<Byte>, e: seq<Byte>, f: seq<Byte>)
    ensures out + a + b + c + d + e + f == out + (a + (b + (c + (d + (e + f)))))
  {
    Append2(out, a, b + (c + (d + (e + f))));
    Append5(out + a, b, c, d, e, f);
  }
}
