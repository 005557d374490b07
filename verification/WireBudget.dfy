/** How much wire the periodic control traffic needs, and when a prompt acknowledgement still fits. */
module WireBudget {
  import opened Arithmetic
  import opened Options
  import opened Periods

  const MAX_WORD: nat := 0xFFFF_FFFF_FFFF_FFFF

  type Word = x: nat | x <= MAX_WORD

  function AddChecked(left: Word, right: Word): (r: Option<Word>)
    ensures r.Some? <==> left + right <= MAX_WORD
    ensures r.Some? ==> r.value == left + right
  {
    if right > MAX_WORD - left then None else Some(left + right)
  }

  function MultiplyChecked(left: Word, right: Word): (r: Option<Word>)
    ensures r.Some? <==> left * right <= MAX_WORD
    ensures r.Some? ==> r.value == left * right
  {
    QuotientBound(left, right);
    if right != 0 && left > MAX_WORD / right then None else Some(left * right)
  }

  lemma QuotientBound(left: nat, right: nat)
    ensures right != 0 ==> (left > MAX_WORD / right <==> left * right > MAX_WORD)
  {
    if right != 0 {
      var q, r := MAX_WORD / right, MAX_WORD % right;
      assert MAX_WORD == q * right + r;
      if left > q {
        Grow(left, q + 1, right);
        assert (q + 1) * right == q * right + right;
      } else {
        Grow(q, left, right);
      }
    }
  }

  // The common period of the timers and the number of timer events within it.

  predicate Positive(periods: seq<Word>) {
    forall k: nat :: k < |periods| ==> periods[k] > 0
  }

  function CommonOf(periods: seq<Word>, n: nat): (c: nat)
    requires n <= |periods| && Positive(periods)
    ensures c > 0
  {
    if n == 0 then 1
    else
      var before := CommonOf(periods, n - 1);
      LcmDivides(before, periods[n - 1]);
      Lcm(before, periods[n - 1])
  }

  lemma {:induction false} CommonDivides(periods: seq<Word>, n: nat, k: nat)
    requires k < n <= |periods| && Positive(periods)
    ensures Divides(periods[k], CommonOf(periods, n))
  {
    LcmDivides(CommonOf(periods, n - 1), periods[n - 1]);
    if k < n - 1 {
      CommonDivides(periods, n - 1, k);
      DividesTransitive(periods[k], CommonOf(periods, n - 1), CommonOf(periods, n));
    }
  }

  /** No smaller number of seconds is a whole number of every period. */
  lemma {:induction false} CommonIsLeast(periods: seq<Word>, n: nat, m: nat)
    requires n <= |periods| && Positive(periods) && m > 0
    requires forall k: nat :: k < n ==> Divides(periods[k], m)
    ensures Divides(CommonOf(periods, n), m) && CommonOf(periods, n) <= m
  {
    if n == 0 {
      DividesIntro(1, m, m);
    } else {
      CommonIsLeast(periods, n - 1, m);
      LcmLeast(CommonOf(periods, n - 1), periods[n - 1], m);
    }
    DividesAtMost(CommonOf(periods, n), m);
  }

  lemma {:induction false} CommonGrows(periods: seq<Word>, m: nat, n: nat)
    requires m <= n <= |periods| && Positive(periods)
    ensures CommonOf(periods, m) <= CommonOf(periods, n)
  {
    if m < n {
      CommonGrows(periods, m, n - 1);
      LcmDivides(CommonOf(periods, n - 1), periods[n - 1]);
      DividesAtMost(CommonOf(periods, n - 1), CommonOf(periods, n));
    }
  }

  function EventsIn(periods: seq<Word>, common: nat, n: nat): nat
    requires n <= |periods| && Positive(periods)
  {
    if n == 0 then 0 else EventsIn(periods, common, n - 1) + common / periods[n - 1]
  }

  /** Timer events in one second, on average. */
  ghost function Frequency(periods: seq<Word>, n: nat): (f: real)
    requires n <= |periods| && Positive(periods)
    ensures f >= 0.0
  {
    if n == 0 then 0.0 else Frequency(periods, n - 1) + 1.0 / periods[n - 1] as real
  }

  lemma {:induction false} EventsMeanFrequency(periods: seq<Word>, common: nat, n: nat)
    requires n <= |periods| && Positive(periods)
    requires forall k: nat :: k < n ==> Divides(periods[k], common)
    ensures EventsIn(periods, common, n) as real == common as real * Frequency(periods, n)
  {
    if n > 0 {
      EventsMeanFrequency(periods, common, n - 1);
      ExactQuotient(periods[n - 1], common);
      RealQuotient(common, periods[n - 1]);
      Spread(common as real, Frequency(periods, n - 1), 1.0 / periods[n - 1] as real);
    }
  }

  lemma Spread(c: real, f: real, g: real)
    ensures c * (f + g) == c * f + c * g
  {}

  lemma RealQuotient(n: nat, d: nat)
    requires d > 0 && n / d * d == n
    ensures (n / d) as real == n as real * (1.0 / d as real)
  {
    var q := n / d;
    assert n as real == q as real * d as real;
    assert d as real * (1.0 / d as real) == 1.0;
    assert n as real * (1.0 / d as real) == q as real * (d as real * (1.0 / d as real));
  }

  lemma {:induction false} EventsAtLeast(periods: seq<Word>, common: nat, n: nat)
    requires n <= |periods| && Positive(periods) && common > 0
    requires forall k: nat :: k < n ==> Divides(periods[k], common)
    ensures EventsIn(periods, common, n) >= n
  {
    if n > 0 {
      EventsAtLeast(periods, common, n - 1);
      ExactQuotient(periods[n - 1], common);
    }
  }

  lemma {:induction false} EventsGrow(periods: seq<Word>, common: nat, m: nat, n: nat)
    requires m <= n <= |periods| && Positive(periods)
    ensures EventsIn(periods, common, m) <= EventsIn(periods, common, n)
  {
    if m < n {
      EventsGrow(periods, common, m, n - 1);
    }
  }

  method FindCommon(periods: seq<Word>) returns (r: Option<Word>)
    requires Positive(periods)
    ensures r.Some? <==> CommonOf(periods, |periods|) <= MAX_WORD
    ensures r.Some? ==> r.value == CommonOf(periods, |periods|)
  {
    var common: Word := 1;
    for k: nat := 0 to |periods|
      invariant common == CommonOf(periods, k)
    {
      GcdPositive(common, periods[k]);
      var g := FindGcd(common, periods[k]);
      QuotientAtMost(common, g);
      CommonGrows(periods, k + 1, |periods|);
      var next := MultiplyChecked(common / g, periods[k]);
      if next.None? {
        return None;
      }
      common := next.value;
    }
    return Some(common);
  }

  lemma QuotientAtMost(n: nat, d: nat)
    requires d > 0
    ensures n / d <= n
  {
    Grow(d, 1, n / d);
    assert n == d * (n / d) + n % d;
  }

  method SumEvents(periods: seq<Word>, common: Word) returns (r: Option<Word>)
    requires Positive(periods)
    ensures r.Some? <==> EventsIn(periods, common, |periods|) <= MAX_WORD
    ensures r.Some? ==> r.value == EventsIn(periods, common, |periods|)
  {
    var events: Word := 0;
    for k: nat := 0 to |periods|
      invariant events == EventsIn(periods, common, k)
    {
      QuotientAtMost(common, periods[k]);
      EventsGrow(periods, common, k + 1, |periods|);
      var next := AddChecked(events, common / periods[k]);
      if next.None? {
        return None;
      }
      events := next.value;
    }
    return Some(events);
  }

  // The background configuration.

  /** Both endpoints of every peer send a request and receive a confirmation. */
  function PairBytes(peers: nat, packet: nat): nat {
    4 * (peers * packet)
  }

  ghost predicate IsCeiling(rate: nat, x: real) {
    x <= rate as real < x + 1.0
  }

  lemma CeilingBounds(a: nat, b: nat)
    requires b > 0
    ensures a <= b * CeilDiv(a, b) < a + b
  {
    assert a == b * (a / b) + a % b;
    assert b * (a / b + 1) == b * (a / b) + b;
  }

  lemma RealCeiling(a: real, b: real, c: real, x: real)
    requires b > 0.0 && a == b * x && a <= b * c < a + b
    ensures x <= c < x + 1.0
  {
    Undo(b, x, c);
    assert b * (x + 1.0) == b * x + b;
    UndoStrict(b, c, x + 1.0);
  }

  lemma RealProduct(a: nat, b: nat)
    ensures (a * b) as real == a as real * b as real
  {}

  lemma CeilingIsExact(a: nat, b: nat, x: real)
    requires b > 0 && a as real == b as real * x
    ensures IsCeiling(CeilDiv(a, b), x)
  {
    var c := CeilDiv(a, b);
    CeilingBounds(a, b);
    RealProduct(b, c);
    hide CeilDiv;
    RealCeiling(a as real, b as real, c as real, x);
  }

  lemma Swap(p: real, c: real, f: real)
    ensures p * (c * f) == c * (p * f)
  {}

  lemma Undo(b: real, x: real, y: real)
    requires b > 0.0 && b * x <= b * y
    ensures x <= y
  {
    assert b * (y - x) >= 0.0;
  }

  lemma UndoStrict(b: real, x: real, y: real)
    requires b > 0.0 && b * x < b * y
    ensures x < y
  {
    assert b * (y - x) > 0.0;
  }

  ghost function Load(peers: nat, packet: nat, periods: seq<Word>): real
    requires Positive(periods)
  {
    PairBytes(peers, packet) as real * Frequency(periods, |periods|)
  }

  /** Everything is nonzero, no word overflows, and the rate is within the reserve. */
  ghost predicate Affordable(available: Word, peers: Word, packet: Word, periods: seq<Word>) {
    && peers > 0 && packet > 0 && Positive(periods)
    && var common := CommonOf(periods, |periods|);
       var numerator := PairBytes(peers, packet) * EventsIn(periods, common, |periods|);
       common <= MAX_WORD && numerator <= MAX_WORD && CeilDiv(numerator, common) <= available
  }

  lemma AllDivide(periods: seq<Word>)
    requires Positive(periods)
    ensures forall k: nat :: k < |periods| ==> Divides(periods[k], CommonOf(periods, |periods|))
  {
    forall k: nat | k < |periods| ensures Divides(periods[k], CommonOf(periods, |periods|)) {
      CommonDivides(periods, |periods|, k);
    }
  }

  lemma RateOf(pair: nat, events: nat, common: nat, f: real)
    requires common > 0 && events as real == common as real * f
    ensures IsCeiling(CeilDiv(pair * events, common), pair as real * f)
  {
    hide CeilDiv, IsCeiling;
    RealProduct(pair, events);
    var p, c, n := pair as real, common as real, pair * events;
    Swap(p, c, f);
    assert n as real == c * (p * f);
    CeilingIsExact(n, common, p * f);
  }

  /** The rate the code divides out is the exact ceiling of the load. */
  lemma RateIsCeiling(peers: nat, packet: nat, periods: seq<Word>)
    requires Positive(periods)
    ensures var common := CommonOf(periods, |periods|);
            IsCeiling(CeilDiv(PairBytes(peers, packet) * EventsIn(periods, common, |periods|), common),
                      Load(peers, packet, periods))
  {
    hide PairBytes, EventsIn, Frequency, CommonOf, CeilDiv, IsCeiling;
    var common := CommonOf(periods, |periods|);
    AllDivide(periods);
    EventsMeanFrequency(periods, common, |periods|);
    var pair, events, f := PairBytes(peers, packet), EventsIn(periods, common, |periods|),
      Frequency(periods, |periods|);
    assert Load(peers, packet, periods) == pair as real * f;
    hide Load;
    RateOf(pair, events, common, f);
  }

  lemma RateFits(numerator: Word, common: Word)
    requires common > 0
    ensures CeilDiv(numerator, common) <= MAX_WORD
  {
    if common == 1 {
      assert numerator % common == 0;
    } else {
      Grow(common, 2, numerator / common);
      assert numerator == common * (numerator / common) + numerator % common;
    }
  }

  class Budget {
    var token: Word
    var bytes: Word
    var wireBytes: Word
    var reserve: Word
    var structuralPool: Word
    var tailBudget: Word
    var backgroundRate: Word
    var backgroundBurst: Word
    var invalid: bool

    constructor ()
      ensures token == bytes == wireBytes == reserve == structuralPool == tailBudget == backgroundRate
              == backgroundBurst == 0
      ensures !invalid
    {
      token, bytes, wireBytes, reserve, structuralPool, tailBudget := 0, 0, 0, 0, 0, 0;
      backgroundRate, backgroundBurst, invalid := 0, 0, false;
    }

    /** Sets aside the control traffic's rate; succeeds exactly when it is affordable, and never wraps. */
    method ConfigureBackground(available: Word, peers: Word, packet: Word, ping: Word, instant: Word, lifetime: Word)
      returns (ok: bool)
      modifies this`reserve, this`backgroundRate, this`backgroundBurst
      ensures ok <==> Affordable(available, peers, packet, [ping, instant, lifetime])
      ensures ok ==> Positive([ping, instant, lifetime])
                     && IsCeiling(backgroundRate, Load(peers, packet, [ping, instant, lifetime]))
      ensures ok ==> reserve + backgroundRate == available && backgroundBurst == 3 * PairBytes(peers, packet)
      ensures !ok ==> reserve == 0
    {
      reserve, backgroundRate, backgroundBurst := 0, 0, 0;
      var periods := [ping, instant, lifetime];
      if peers == 0 || packet == 0 || ping == 0 || instant == 0 || lifetime == 0 {
        assert !Positive(periods) || peers == 0 || packet == 0 by {
          assert periods[0] == ping && periods[1] == instant && periods[2] == lifetime;
        }
        return false;
      }
      var found := FindCommon(periods);
      if found.None? {
        return false;
      }
      var common: Word := found.value;
      AllDivide(periods);
      EventsAtLeast(periods, common, 3);
      hide CommonOf, EventsIn, Load, IsCeiling, CeilDiv;
      NumeratorBound(PairBytes(peers, packet), EventsIn(periods, common, 3));
      var events := SumEvents(periods, common);
      if events.None? {
        return false;
      }
      var numerator;
      numerator, backgroundBurst := Multiply(peers, packet, events.value);
      if numerator.None? {
        return false;
      }
      RateFits(numerator.value, common);
      RateIsCeiling(peers, packet, periods);
      backgroundRate := DivideUp(numerator.value, common);
      if backgroundRate > available {
        return false;
      }
      reserve := available - backgroundRate;
      return true;
    }

    /** Begins a grant; a zero token or size is invalid. */
    method Begin(nextToken: Word, size: Word)
      modifies this`token, this`bytes, this`wireBytes, this`invalid
      ensures token == nextToken && bytes == size && wireBytes == 0
      ensures invalid <==> nextToken == 0 || size == 0
    {
      token, bytes, wireBytes := nextToken, size, 0;
      invalid := token == 0 || bytes == 0;
    }

    /** Charges one datagram with its headers; an empty datagram or an overflow is remembered. */
    method Charge(datagram: Word, header: Word)
      modifies this`wireBytes, this`invalid
      ensures invalid <==> old(invalid)
                           || (token != 0 && (datagram == 0 || old(wireBytes) + datagram + header > MAX_WORD))
      ensures wireBytes == old(wireBytes) + (if token != 0 && !invalid then datagram + header else 0)
    {
      if token == 0 || invalid {
        return;
      }
      if datagram == 0 {
        invalid := true;
        return;
      }
      var packet := AddChecked(datagram, header);
      if packet.None? {
        invalid := true;
        return;
      }
      var sum := AddChecked(wireBytes, packet.value);
      if sum.None? {
        invalid := true;
        return;
      }
      wireBytes := sum.value;
    }

    /** After a grant begins, the charge is exactly the sum of its datagrams, or known to be unusable. */
    method ChargeAll(nextToken: Word, size: Word, datagrams: seq<(Word, Word)>)
      requires nextToken != 0 && size != 0
      modifies this`token, this`bytes, this`wireBytes, this`invalid
      ensures invalid <==> (exists k: nat :: k < |datagrams| && datagrams[k].0 == 0)
                           || WireSum(datagrams, |datagrams|) > MAX_WORD
      ensures !invalid ==> wireBytes == WireSum(datagrams, |datagrams|)
    {
      Begin(nextToken, size);
      for n: nat := 0 to |datagrams|
        invariant token != 0
        invariant invalid <==> (exists k: nat :: k < n && datagrams[k].0 == 0) || WireSum(datagrams, n) > MAX_WORD
        invariant !invalid ==> wireBytes == WireSum(datagrams, n)
      {
        Charge(datagrams[n].0, datagrams[n].1);
      }
    }

    predicate Ready()
      reads this
    {
      !invalid && token != 0 && bytes != 0 && structuralPool != 0 && tailBudget != 0
    }

    /** The grant's wire allowance: its own bytes plus the reserve's share of them. */
    function Ceiling(): (r: Option<Word>)
      reads this
      ensures r.Some? <==> Ready() && bytes * reserve <= MAX_WORD
                           && bytes + Quota(bytes * reserve, structuralPool) <= MAX_WORD
      ensures r.Some? ==> r.value == bytes + Quota(bytes * reserve, structuralPool)
    {
      QuotientBound(bytes, reserve);
      if invalid || token == 0 || bytes == 0 || structuralPool == 0 || tailBudget == 0
         || (reserve != 0 && bytes > MAX_WORD / reserve) then None
      else
        QuotaAtMost(bytes * reserve, structuralPool);
        AddChecked(bytes, Quota(bytes * reserve, structuralPool))
    }

    function CanRequest(finalPacket: Word): (r: bool)
      reads this
      ensures r ==> Ceiling().Some? && finalPacket != 0
      ensures r ==> wireBytes + finalPacket + tailBudget <= MAX_WORD
      ensures Ceiling().Some? && finalPacket != 0 ==>
                (r <==> (wireBytes + finalPacket + tailBudget - bytes) * structuralPool <= bytes * reserve)
    {
      var limit := Ceiling();
      if finalPacket == 0 || limit.None? then false
      else
        QuotaBound(wireBytes + finalPacket + tailBudget - bytes, bytes * reserve, structuralPool);
        var cost := AddChecked(wireBytes, finalPacket);
        if cost.None? then false
        else
          var whole := AddChecked(cost.value, tailBudget);
          whole.Some? && whole.value <= limit.value
    }
  }

  /** How many whole units of size `d` fit in `n`. */
  function Quota(n: nat, d: nat): nat
    requires d > 0
  {
    n / d
  }

  lemma QuotaAtMost(n: nat, d: nat)
    requires d > 0
    ensures Quota(n, d) <= n
  {
    QuotientAtMost(n, d);
  }

  lemma QuotaBound(x: int, n: nat, d: nat)
    requires d > 0
    ensures x <= Quota(n, d) <==> x * d <= n
  {
    var q, r := n / d, n % d;
    assert n == q * d + r;
    if x <= q {
      assert (q - x) * d >= 0;
      assert q * d - x * d == (q - x) * d;
    } else {
      Product(x - q, d);
      assert (x - q) * d == x * d - q * d;
    }
  }

  function WireSum(datagrams: seq<(Word, Word)>, n: nat): nat
    requires n <= |datagrams|
  {
    if n == 0 then 0 else WireSum(datagrams, n - 1) + datagrams[n - 1].0 + datagrams[n - 1].1
  }

  lemma NumeratorBound(pair: nat, events: nat)
    requires events >= 3
    ensures pair * events >= 3 * pair && pair * events >= pair
    ensures pair > 0 ==> pair * events >= events
  {
    Grow(events, 3, pair);
    if pair > 0 {
      Product(pair, events);
    }
  }

  /** The chain of checked products: pair bytes, numerator and burst. */
  method Multiply(peers: Word, packet: Word, events: Word) returns (numerator: Option<Word>, burst: Word)
    requires peers > 0 && packet > 0 && events >= 3
    ensures numerator.Some? <==> PairBytes(peers, packet) * events <= MAX_WORD
    ensures numerator.Some? ==> numerator.value == PairBytes(peers, packet) * events
                                && burst == 3 * PairBytes(peers, packet)
    ensures numerator.None? ==> burst == 0
  {
    ghost var pair := PairBytes(peers, packet);
    NumeratorBound(pair, events);
    PairSteps(peers, packet);
    hide PairBytes;
    var two := MultiplyChecked(peers, 2);
    if two.None? {
      return None, 0;
    }
    var each := MultiplyChecked(two.value, packet);
    if each.None? {
      return None, 0;
    }
    var both := MultiplyChecked(each.value, 2);
    if both.None? {
      return None, 0;
    }
    numerator := MultiplyChecked(both.value, events);
    if numerator.None? {
      return None, 0;
    }
    var thrice := MultiplyChecked(both.value, 3);
    return numerator, thrice.value;
  }

  lemma PairSteps(peers: nat, packet: nat)
    requires peers > 0 && packet > 0
    ensures (peers * 2) * packet * 2 == PairBytes(peers, packet)
    ensures peers * 2 <= (peers * 2) * packet <= PairBytes(peers, packet)
  {
    assert (peers * 2) * packet == 2 * (peers * packet);
    Product(peers, packet);
  }

  method DivideUp(numerator: Word, common: Word) returns (rate: Word)
    requires common > 0 && CeilDiv(numerator, common) <= MAX_WORD
    ensures rate == CeilDiv(numerator, common)
  {
    QuotientAtMost(numerator, common);
    rate := numerator / common;
    if numerator % common != 0 {
      var more := AddChecked(rate, 1);
      rate := more.value;
    }
  }
}
