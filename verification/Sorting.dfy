/** Sorting natural numbers into strictly ascending order. */
module Sorting {
  import opened DependencyGraph

  predicate Rising(s: seq<nat>) {
    forall i: nat, j: nat :: i < j < |s| ==> s[i] < s[j]
  }

  function Insert(s: seq<nat>, x: nat): seq<nat> {
    if s == [] then [x]
    else if x <= s[0] then [x] + s
    else [s[0]] + Insert(s[1..], x)
  }

  function Sort(s: seq<nat>): seq<nat> {
    if s == [] then [] else Insert(Sort(s[1..]), s[0])
  }

  lemma RisingInFront(x: nat, s: seq<nat>)
    requires Rising(s) && forall i :: i in s ==> x < i
    ensures Rising([x] + s)
  {
    assert forall k: nat :: k < |s| ==> s[k] in s;
  }

  lemma RisingRest(s: seq<nat>)
    requires Rising(s) && s != []
    ensures Rising(s[1..]) && s == [s[0]] + s[1..] && forall i :: i in s[1..] ==> s[0] < i
  {}

  lemma {:induction false} InsertRises(s: seq<nat>, x: nat)
    requires Rising(s) && x !in s
    ensures Rising(Insert(s, x)) && |Insert(s, x)| == |s| + 1
    ensures forall i :: i in Insert(s, x) <==> i == x || i in s
  {
    if s != [] {
      assert s[0] in s;
      RisingRest(s);
      hide Rising;
      if x > s[0] {
        InsertRises(s[1..], x);
        RisingInFront(s[0], Insert(s[1..], x));
      } else {
        RisingInFront(x, s);
      }
    }
  }

  lemma {:induction false} SortRises(s: seq<nat>)
    requires Distinct(s)
    ensures Rising(Sort(s)) && |Sort(s)| == |s|
    ensures forall i :: i in Sort(s) <==> i in s
  {
    if s != [] {
      assert s == [s[0]] + s[1..];
      SortRises(s[1..]);
      InsertRises(Sort(s[1..]), s[0]);
    }
  }

  /** Two ascending sequences with the same elements are the same sequence. */
  lemma {:induction false} RisingUnique(s: seq<nat>, t: seq<nat>)
    requires Rising(s) && Rising(t) && forall i :: i in s <==> i in t
    ensures s == t
  {
    assert (s != [] ==> s[0] in s) && (t != [] ==> t[0] in t);
    if s != [] && t != [] {
      RisingRest(s);
      RisingRest(t);
      hide Rising;
      SameFirst(s, t);
      RisingUnique(s[1..], t[1..]);
    }
  }

  lemma SameFirst(s: seq<nat>, t: seq<nat>)
    requires s != [] && t != [] && (forall i :: i in s <==> i in t)
    requires forall i :: i in s[1..] ==> s[0] < i
    requires forall i :: i in t[1..] ==> t[0] < i
    ensures s[0] == t[0]
    ensures forall i :: i in s[1..] <==> i in t[1..]
  {
    assert s == [s[0]] + s[1..] && t == [t[0]] + t[1..];
    assert s[0] in t && t[0] in s;
    assert forall i :: i in s <==> i == s[0] || i in s[1..];
    assert forall i :: i in t <==> i == t[0] || i in t[1..];
  }
}
