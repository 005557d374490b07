/** Divisibility, Euclid's algorithm and the common period of several timers. */
module Periods {
  import opened Arithmetic

  ghost predicate Divides(d: nat, n: nat) {
    exists k: nat :: Times(d, k) == n
  }

  function Times(d: nat, k: nat): nat {
    d * k
  }

  lemma DividesIntro(d: nat, k: nat, n: nat)
    requires d * k == n
    ensures Divides(d, n)
  {
    assert Times(d, k) == n;
  }

  lemma DividesTransitive(a: nat, b: nat, c: nat)
    requires Divides(a, b) && Divides(b, c)
    ensures Divides(a, c)
  {
    var j: nat :| Times(a, j) == b;
    var k: nat :| Times(b, k) == c;
    assert a * (j * k) == (a * j) * k;
    DividesIntro(a, j * k, c);
  }

  lemma DividesAtMost(a: nat, b: nat)
    requires Divides(a, b) && b > 0
    ensures 0 < a <= b
  {
    var k: nat :| Times(a, k) == b;
    if k > 0 && a > 0 {
      Product(a, k);
    }
  }

  lemma ExactQuotient(d: nat, n: nat)
    requires Divides(d, n) && d > 0
    ensures n / d * d == n
  {
    var k: nat :| Times(d, k) == n;
    Cancel(d, k);
  }

  lemma Cancel(d: nat, k: nat)
    requires d > 0
    ensures d * k / d == k
  {
    DivisionIsUnique(d * k, d, k, 0);
  }

  function Gcd(a: nat, b: nat): nat
    decreases b
  {
    if b == 0 then a else Gcd(b, a % b)
  }

  lemma {:induction false} GcdDivides(a: nat, b: nat)
    ensures Divides(Gcd(a, b), a) && Divides(Gcd(a, b), b)
    decreases b
  {
    if b == 0 {
      DividesIntro(a, 1, a);
      DividesIntro(a, 0, 0);
    } else {
      GcdDivides(b, a % b);
      var g := Gcd(a, b);
      var j: nat :| Times(g, j) == b;
      var k: nat :| Times(g, k) == a % b;
      var q := a / b;
      assert a == b * q + a % b;
      assert g * (j * q + k) == (g * j) * q + g * k;
      DividesIntro(g, j * q + k, a);
    }
  }

  /** The greatest common divisor is a combination of the two numbers. */
  lemma {:induction false} Bezout(a: nat, b: nat) returns (s: int, t: int)
    ensures s * a + t * b == Gcd(a, b)
    decreases b
  {
    if b == 0 {
      s, t := 1, 0;
    } else {
      var u, v := Bezout(b, a % b);
      var q := a / b;
      assert a % b == a - q * b;
      assert v * (a % b) == v * a - v * q * b;
      s, t := v, u - v * q;
      assert t * b == u * b - v * q * b;
    }
  }

  lemma GcdPositive(a: nat, b: nat)
    requires a > 0 || b > 0
    ensures Gcd(a, b) > 0
  {
    GcdDivides(a, b);
    if a > 0 {
      DividesAtMost(Gcd(a, b), a);
    } else {
      DividesAtMost(Gcd(a, b), b);
    }
  }

  function Lcm(a: nat, b: nat): (r: nat)
    requires a > 0
  {
    GcdPositive(a, b);
    a / Gcd(a, b) * b
  }

  lemma Interchange(x: nat, y: nat, g: nat)
    ensures x * (y * g) == (x * g) * y
  {}

  lemma LcmDivides(a: nat, b: nat)
    requires a > 0 && b > 0
    ensures Divides(a, Lcm(a, b)) && Divides(b, Lcm(a, b)) && Lcm(a, b) > 0
  {
    GcdPositive(a, b);
    GcdDivides(a, b);
    var g := Gcd(a, b);
    ExactQuotient(g, a);
    ExactQuotient(g, b);
    var x, y := a / g, b / g;
    Interchange(x, y, g);
    DividesIntro(a, y, Lcm(a, b));
    assert b * x == x * b;
    DividesIntro(b, x, Lcm(a, b));
    assert x > 0 && b > 0;
    Product(x, b);
  }

  /** Every common multiple is a multiple of the least one. */
  lemma LcmLeast(a: nat, b: nat, m: nat)
    requires a > 0 && b > 0 && m > 0 && Divides(a, m) && Divides(b, m)
    ensures Divides(Lcm(a, b), m)
  {
    GcdPositive(a, b);
    GcdDivides(a, b);
    LcmDivides(a, b);
    var g, l := Gcd(a, b), Lcm(a, b);
    ExactQuotient(g, a);
    var x: nat :| Times(a, x) == m;
    var y: nat :| Times(b, y) == m;
    var s, t := Bezout(a, b);
    var c := s * y + t * x;
    CombineMultiples(a, b, g, l, m, x, y, s, t);
    PositiveFactor(l, c);
    DividesIntro(l, c, m);
  }

  lemma PositiveFactor(l: nat, c: int)
    requires l * c > 0
    ensures c > 0
  {}

  lemma CombineMultiples(a: nat, b: nat, g: nat, l: nat, m: nat, x: nat, y: nat, s: int, t: int)
    requires g > 0 && a / g * g == a && l == a / g * b && m == a * x == b * y && s * a + t * b == g
    ensures m == l * (s * y + t * x)
  {
    var q := a / g;
    assert l * g == a * b by {
      assert q * b * g == (q * g) * b;
    }
    assert m * g == m * (s * a) + m * (t * b);
    assert m * (s * a) == (b * y) * (s * a) == (a * b) * (s * y);
    assert m * (t * b) == (a * x) * (t * b) == (a * b) * (t * x);
    assert m * g == (l * g) * (s * y + t * x);
    SameFactor(m, l * (s * y + t * x), g);
  }

  lemma SameFactor(m: int, n: int, g: nat)
    requires g > 0 && m * g == n * g
    ensures m == n
  {
    assert (m - n) * g == 0;
  }

  /** Euclid's loop. */
  method FindGcd(a: nat, b: nat) returns (g: nat)
    ensures g == Gcd(a, b)
  {
    var left, right := a, b;
    while right != 0
      invariant Gcd(left, right) == Gcd(a, b)
    {
      left, right := right, left % right;
    }
    return left;
  }
}
