/** Products and quotients of integers. */
module Arithmetic {

  lemma Product(a: int, b: int)
    requires a > 0 && b > 0
    ensures a * b >= a && a * b >= b
  {}

  lemma Grow(a: nat, b: nat, c: nat)
    requires a >= b
    ensures a * c >= b * c
  {
    assert (a - b) * c >= 0;
    assert a * c == b * c + (a - b) * c;
  }

  lemma DivisionIsUnique(k: int, d: int, q: int, r: int)
    requires d > 0 && k == q * d + r && 0 <= r < d
    ensures k / d == q && k % d == r
  {
    var p, s := k / d, k % d;
    assert p * d + s == k;
    assert (q - p) * d == s - r;
    assert (p - q) * d == r - s;
    if q > p {
      Product(q - p, d);
    } else if q < p {
      Product(p - q, d);
    }
  }

  /** Rounded-up division as the source writes it. */
  function CeilDiv(a: nat, b: nat): nat
    requires b > 0
  {
    a / b + if a % b != 0 then 1 else 0
  }

  lemma {:induction false} CeilDivReaches(a: nat, b: nat, n: nat)
    requires b > 0
    ensures n >= CeilDiv(a, b) <==> n * b >= a
  {
    var q, r := a / b, a % b;
    assert a == q * b + r;
    if n >= q + 1 {
      assert n * b >= (q + 1) * b;
    } else {
      assert n * b <= q * b;
      if n < q {
        assert n * b <= (q - 1) * b;
      }
    }
  }
}
