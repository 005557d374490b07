/** Weighted sums over sequences, and how single-element changes move them. */
module Totals {

  function Total<T>(s: seq<T>, weight: T -> nat): nat {
    if s == [] then 0 else weight(s[0]) + Total(s[1..], weight)
  }

  lemma {:induction false} TotalConcat<T>(a: seq<T>, b: seq<T>, weight: T -> nat)
    ensures Total(a + b, weight) == Total(a, weight) + Total(b, weight)
  {
    if a == [] {
      assert a + b == b;
    } else {
      assert (a + b)[1..] == a[1..] + b;
      TotalConcat(a[1..], b, weight);
    }
  }

  lemma TotalPair<T>(x: T, y: T, weight: T -> nat)
    ensures Total([x, y], weight) == weight(x) + weight(y) && Total([x], weight) == weight(x)
  {
    assert [x, y] == [x] + [y];
    TotalConcat([x], [y], weight);
  }

  lemma TotalAppend<T>(a: seq<T>, x: T, weight: T -> nat)
    ensures Total(a + [x], weight) == Total(a, weight) + weight(x)
  {
    TotalConcat(a, [x], weight);
  }

  lemma {:induction false} TotalRemove<T>(s: seq<T>, i: nat, weight: T -> nat)
    requires i < |s|
    ensures Total(s[..i] + s[i + 1..], weight) + weight(s[i]) == Total(s, weight)
  {
    var rest := s[..i] + s[i + 1..];
    if i == 0 {
      assert rest == s[1..];
    } else {
      assert rest[1..] == s[1..][..i - 1] + s[1..][i..];
      TotalRemove(s[1..], i - 1, weight);
    }
  }

  lemma TotalUpdate<T>(s: seq<T>, i: nat, x: T, weight: T -> nat)
    requires i < |s|
    ensures Total(s[i := x], weight) + weight(s[i]) == Total(s, weight) + weight(x)
  {
    var t := s[i := x];
    assert t[..i] == s[..i] && t[i + 1..] == s[i + 1..];
    TotalRemove(s, i, weight);
    TotalRemove(t, i, weight);
  }

  lemma {:induction false} TotalAtMost<T>(s: seq<T>, t: seq<T>, weight: T -> nat)
    requires |s| == |t|
    requires forall i :: 0 <= i < |s| ==> weight(s[i]) <= weight(t[i])
    ensures Total(s, weight) <= Total(t, weight)
  {
    if s != [] {
      TotalAtMost(s[1..], t[1..], weight);
    }
  }

  lemma TotalSame<T>(s: seq<T>, t: seq<T>, weight: T -> nat)
    requires |s| == |t|
    requires forall i :: 0 <= i < |s| ==> weight(s[i]) == weight(t[i])
    ensures Total(s, weight) == Total(t, weight)
  {
    TotalAtMost(s, t, weight);
    TotalAtMost(t, s, weight);
  }

  lemma {:induction false} TotalZero<T>(s: seq<T>, weight: T -> nat)
    requires forall i :: 0 <= i < |s| ==> weight(s[i]) == 0
    ensures Total(s, weight) == 0
  {
    if s != [] {
      TotalZero(s[1..], weight);
    }
  }

  lemma TotalMember<T>(s: seq<T>, i: nat, weight: T -> nat)
    requires i < |s|
    ensures weight(s[i]) <= Total(s, weight)
  {
    TotalRemove(s, i, weight);
  }
}
