/** Root motion in exact group arithmetic: powers by squaring, looped trajectories, and deltas that compose. */
module RootMotion {
  import opened Options

  const MAX_CYCLES: nat := 0x1_0000_0000_0000_0000

  datatype Group<!T> = Group(mul: (T, T) -> T, one: T, inverse: T -> T)

  ghost predicate Laws<T(!new)>(g: Group<T>) {
    && (forall a, b, c :: g.mul(g.mul(a, b), c) == g.mul(a, g.mul(b, c)))
    && (forall a :: g.mul(a, g.one) == a && g.mul(g.one, a) == a)
    && (forall a :: g.mul(a, g.inverse(a)) == g.one && g.mul(g.inverse(a), a) == g.one)
  }

  lemma Assoc<T(!new)>(g: Group<T>, a: T, b: T, c: T)
    requires Laws(g)
    ensures g.mul(g.mul(a, b), c) == g.mul(a, g.mul(b, c))
  {}

  lemma Unit<T(!new)>(g: Group<T>, a: T)
    requires Laws(g)
    ensures g.mul(a, g.one) == a && g.mul(g.one, a) == a
  {}

  lemma Inverse<T(!new)>(g: Group<T>, a: T)
    requires Laws(g)
    ensures g.mul(a, g.inverse(a)) == g.one && g.mul(g.inverse(a), a) == g.one
  {}

  /** The `n`-fold product. */
  function Power<T>(g: Group<T>, base: T, n: nat): T {
    if n == 0 then g.one else g.mul(base, Power(g, base, n - 1))
  }

  lemma {:induction false} PowerAdds<T(!new)>(g: Group<T>, base: T, m: nat, n: nat)
    requires Laws(g)
    ensures Power(g, base, m + n) == g.mul(Power(g, base, m), Power(g, base, n))
  {
    hide Laws;
    if m == 0 {
      Unit(g, Power(g, base, n));
    } else {
      PowerAdds(g, base, m - 1, n);
      Assoc(g, base, Power(g, base, m - 1), Power(g, base, n));
    }
  }

  lemma {:induction false} PowerOfSquare<T(!new)>(g: Group<T>, base: T, k: nat)
    requires Laws(g)
    ensures Power(g, g.mul(base, base), k) == Power(g, base, 2 * k)
  {
    hide Laws;
    if k > 0 {
      PowerOfSquare(g, base, k - 1);
      Assoc(g, base, base, Power(g, base, 2 * k - 2));
      assert Power(g, base, 2 * k - 1) == g.mul(base, Power(g, base, 2 * k - 2));
    }
  }

  /** One round of squaring: the low bit is multiplied in, the rest is left to the squared base. */
  lemma SquaringStep<T(!new)>(g: Group<T>, result: T, base: T, n: nat)
    requires Laws(g) && n > 0
    ensures g.mul(if n % 2 == 1 then g.mul(result, base) else result, Power(g, g.mul(base, base), n / 2))
            == g.mul(result, Power(g, base, n))
  {
    hide Laws;
    var half := n / 2;
    PowerOfSquare(g, base, half);
    if n % 2 == 1 {
      assert n == 2 * half + 1;
      Assoc(g, result, base, Power(g, base, 2 * half));
    }
  }

  method PowTransform<T(!new)>(g: Group<T>, initial: T, n: nat) returns (result: T)
    requires Laws(g)
    ensures result == Power(g, initial, n)
  {
    result := g.one;
    Unit(g, Power(g, initial, n));
    hide Laws;
    var base, exponent := initial, n;
    while exponent != 0
      invariant g.mul(result, Power(g, base, exponent)) == Power(g, initial, n)
    {
      SquaringStep(g, result, base, exponent);
      if exponent % 2 != 0 {
        result := g.mul(result, base);
      }
      exponent := exponent / 2;
      if exponent != 0 {
        base := g.mul(base, base);
      }
    }
    Unit(g, result);
  }

  /** A clip's root: its pose relative to the start, where it can be sampled, over its duration. */
  datatype Clip<!T> = Clip(relative: real -> Option<T>, duration: real)

  function Cycles(t: real, duration: real): int
    requires duration > 0.0
  {
    (t / duration).Floor
  }

  /** What is left of a logical time after its whole cycles. */
  function Remainder(t: real, duration: real): real
    requires duration > 0.0
  {
    t - Cycles(t, duration) as real * duration
  }

  function Clamp(t: real, low: real, high: real): real {
    if t < low then low else if t > high then high else t
  }

  /** The trajectory at a logical time: whole cycles, then the part of the current one. */
  ghost function Trajectory<T>(g: Group<T>, clip: Clip<T>, looped: bool, t: real): Option<T> {
    if t < 0.0 || clip.duration <= 0.0 then None
    else if !looped then clip.relative(if t < clip.duration then t else clip.duration)
    else
      var n := Cycles(t, clip.duration);
      if n < 0 || n > MAX_CYCLES then None
      else
        var cycle, tail := clip.relative(clip.duration), clip.relative(Remainder(t, clip.duration));
        if cycle.None? || tail.None? then None
        else Some(g.mul(Power(g, cycle.value, n), tail.value))
  }

  lemma CyclesBound(t: real, duration: real)
    requires duration > 0.0 && t >= 0.0
    ensures Cycles(t, duration) >= 0 && 0.0 <= Remainder(t, duration) < duration
  {
    var q := t / duration;
    NonNegativeQuotient(t, duration);
    assert q * duration == t;
    RestIsShort(q, q.Floor as real, duration, t);
    NotBelow(q, q.Floor as real, duration, t);
  }

  lemma OrderedStrict(a: real, b: real, d: real)
    requires a < b && d > 0.0
    ensures a * d < b * d
  {
    assert (b - a) * d > 0.0;
  }

  lemma BelowNext(q: real, n: real, d: real, t: real)
    requires d > 0.0 && q * d == t && q < n + 1.0
    ensures t < (n + 1.0) * d
  {
    OrderedStrict(q, n + 1.0, d);
  }

  lemma RestIsShort(q: real, n: real, d: real, t: real)
    requires d > 0.0 && q * d == t && q < n + 1.0
    ensures t - n * d < d
  {
    BelowNext(q, n, d, t);
    OneMore(n, d);
  }

  lemma OneMore(n: real, d: real)
    ensures (n + 1.0) * d == n * d + d
  {}

  lemma NotBelow(q: real, n: real, d: real, t: real)
    requires d > 0.0 && n <= q && q * d == t
    ensures t - n * d >= 0.0
  {
    assert (q - n) * d >= 0.0;
  }

  lemma NonNegativeQuotient(t: real, d: real)
    requires t >= 0.0 && d > 0.0
    ensures t / d >= 0.0
  {}

  method TrajectoryAt<T(!new)>(g: Group<T>, clip: Clip<T>, looped: bool, t: real) returns (r: Option<T>)
    requires Laws(g)
    ensures r == Trajectory(g, clip, looped, t)
    ensures t < 0.0 || clip.duration <= 0.0 ==> r == None
    ensures t >= 0.0 && clip.duration > 0.0 && !looped ==>
            r == clip.relative(if t < clip.duration then t else clip.duration)
    ensures t >= 0.0 && clip.duration > 0.0 && looped ==>
              forall n: nat, x: real :: LiesAt(t, clip.duration, n, x) ==>
                r == if n > MAX_CYCLES || clip.relative(clip.duration).None? || clip.relative(x).None? then None
                     else Some(g.mul(Power(g, clip.relative(clip.duration).value, n), clip.relative(x).value))
  {
    Standing(g, clip, t);
    hide Laws, LiesAt;
    if t < 0.0 || clip.duration <= 0.0 {
      return None;
    }
    if !looped {
      return clip.relative(if t < clip.duration then t else clip.duration);
    }
    var n := Cycles(t, clip.duration);
    CyclesBound(t, clip.duration);
    hide Cycles, Remainder;
    if n < 0 || n > MAX_CYCLES {
      return None;
    }
    var remainder := Remainder(t, clip.duration);
    var cycle := clip.relative(clip.duration);
    var tail := clip.relative(Clamp(remainder, 0.0, clip.duration));
    if cycle.None? || tail.None? {
      return None;
    }
    var turns := PowTransform(g, cycle.value, n);
    return Some(g.mul(turns, tail.value));
  }

  lemma CyclesShift(t: real, duration: real, k: nat)
    requires duration > 0.0
    ensures Cycles(t + k as real * duration, duration) == Cycles(t, duration) + k
  {
    assert (t + k as real * duration) / duration == t / duration + k as real by {
      var q := t / duration;
      assert (q + k as real) * duration == t + k as real * duration;
      QuotientUnique(t + k as real * duration, duration, q + k as real);
    }
  }

  lemma QuotientUnique(x: real, d: real, q: real)
    requires d > 0.0 && q * d == x
    ensures x / d == q
  {}

  lemma LoopedValue<T(!new)>(g: Group<T>, clip: Clip<T>, t: real)
    requires Trajectory(g, clip, true, t).Some?
    ensures clip.duration > 0.0 && clip.relative(clip.duration).Some?
            && clip.relative(Remainder(t, clip.duration)).Some?
    ensures Cycles(t, clip.duration) >= 0
    ensures Trajectory(g, clip, true, t).value
            == g.mul(Power(g, clip.relative(clip.duration).value, Cycles(t, clip.duration)),
                     clip.relative(Remainder(t, clip.duration)).value)
  {
    hide Cycles, Remainder, Power;
  }

  /** `k` whole cycles later, the trajectory is the same one carried on from `k` cycles of motion. */
  lemma LoopShift<T(!new)>(g: Group<T>, clip: Clip<T>, t: real, k: nat)
    requires Laws(g) && Trajectory(g, clip, true, t).Some?
    requires Trajectory(g, clip, true, t + k as real * clip.duration).Some?
    ensures clip.relative(clip.duration).Some?
    ensures Trajectory(g, clip, true, t + k as real * clip.duration).value
            == g.mul(Power(g, clip.relative(clip.duration).value, k), Trajectory(g, clip, true, t).value)
  {
    hide Laws, Cycles, Remainder, Trajectory, Power;
    var d, later := clip.duration, t + k as real * clip.duration;
    LoopedValue(g, clip, t);
    LoopedValue(g, clip, later);
    CyclesShift(t, d, k);
    RemainderShift(t, d, k);
    var cycle, n, tail := clip.relative(d).value, Cycles(t, d), clip.relative(Remainder(t, d)).value;
    assert Cycles(later, d) == k + n && Remainder(later, d) == Remainder(t, d);
    PowerAdds(g, cycle, k, n);
    Assoc(g, Power(g, cycle, k), Power(g, cycle, n), tail);
    assert Trajectory(g, clip, true, later).value == g.mul(Power(g, cycle, k + n), tail);
  }

  lemma RemainderShift(t: real, duration: real, k: nat)
    requires duration > 0.0
    ensures Remainder(t + k as real * duration, duration) == Remainder(t, duration)
  {
    CyclesShift(t, duration, k);
    var n := Cycles(t, duration);
    hide Cycles;
    Spread(n as real, k as real, duration);
  }

  lemma Spread(a: real, b: real, d: real)
    ensures (a + b) * d == a * d + b * d
  {}

  /** The motion from one logical time to another. */
  ghost function Delta<T>(g: Group<T>, clip: Clip<T>, looped: bool, from: real, to: real): Option<T> {
    var a, b := Trajectory(g, clip, looped, from), Trajectory(g, clip, looped, to);
    if a.None? || b.None? then None else Some(g.mul(g.inverse(a.value), b.value))
  }

  // What an interval moves, read off the clip itself.

  /** Logical time `t` is `x` into cycle `n` of the clip. */
  ghost predicate LiesAt(t: real, duration: real, n: nat, x: real) {
    t == n as real * duration + x && 0.0 <= x < duration
  }

  lemma AtLeastOnce(r: real, d: real)
    requires d > 0.0 && r >= 1.0
    ensures r * d >= d
  {
    assert (r - 1.0) * d >= 0.0;
  }

  lemma PartOfOne(r: real, d: real, x: real)
    requires d > 0.0 && r * d == x && 0.0 <= x < d
    ensures 0.0 <= r < 1.0
  {
    if r >= 1.0 {
      AtLeastOnce(r, d);
    }
    if r < 0.0 {
      OrderedStrict(r, 0.0, d);
    }
  }

  lemma QuotientLies(q: real, a: real, d: real, x: real)
    requires d > 0.0 && q * d == a * d + x && 0.0 <= x < d
    ensures a <= q < a + 1.0
  {
    Spread(q - a, a, d);
    PartOfOne(q - a, d, x);
  }

  lemma LiesOnce(t: real, duration: real, n: nat, x: real)
    requires duration > 0.0 && LiesAt(t, duration, n, x)
    ensures Cycles(t, duration) == n && Remainder(t, duration) == x
  {
    var q := t / duration;
    assert q * duration == t;
    QuotientLies(q, n as real, duration, x);
    assert q.Floor == n;
  }

  /** `k` cycles forward, or as many back. */
  function Turns<T>(g: Group<T>, cycle: T, k: int): T {
    if k >= 0 then Power(g, cycle, k) else g.inverse(Power(g, cycle, -k))
  }

  /** From the pose at `x` back to the start, the cycles in between, and on to the pose at `y`. */
  ghost function Between<T>(g: Group<T>, clip: Clip<T>, x: real, y: real, turns: Option<T>): Option<T> {
    var a, b := clip.relative(x), clip.relative(y);
    if a.None? || b.None? || turns.None? then None
    else Some(g.mul(g.inverse(a.value), g.mul(turns.value, b.value)))
  }

  /** What is handed on of a motion. */
  ghost function Accepted<T(!new)>(whole: Option<T>, acceptable: T -> bool): Option<T> {
    if whole.Some? && acceptable(whole.value) then whole else None
  }

  lemma InverseOfProduct<T(!new)>(g: Group<T>, a: T, b: T)
    requires Laws(g)
    ensures g.inverse(g.mul(a, b)) == g.mul(g.inverse(b), g.inverse(a))
  {
    hide Laws;
    var ab, back := g.mul(a, b), g.mul(g.inverse(b), g.inverse(a));
    Assoc(g, ab, g.inverse(b), g.inverse(a));
    Assoc(g, a, b, g.inverse(b));
    Inverse(g, b);
    Unit(g, a);
    Inverse(g, a);
    Assoc(g, g.inverse(ab), ab, back);
    Inverse(g, ab);
    Unit(g, back);
    Unit(g, g.inverse(ab));
  }

  lemma BackAndOn<T(!new)>(g: Group<T>, p: T, rest: T)
    requires Laws(g)
    ensures g.mul(g.inverse(p), g.mul(p, rest)) == rest
  {
    hide Laws;
    Assoc(g, g.inverse(p), p, rest);
    Inverse(g, p);
    Unit(g, rest);
  }

  lemma FurtherBack<T(!new)>(g: Group<T>, q: T, rest: T)
    requires Laws(g)
    ensures g.mul(g.inverse(g.mul(q, rest)), q) == g.inverse(rest)
  {
    hide Laws;
    InverseOfProduct(g, q, rest);
    Assoc(g, g.inverse(rest), g.inverse(q), q);
    Inverse(g, q);
    Unit(g, g.inverse(rest));
  }

  /** Whole cycles back and forth leave the difference. */
  lemma TurnsDiffer<T(!new)>(g: Group<T>, cycle: T, n: nat, m: nat)
    requires Laws(g)
    ensures g.mul(g.inverse(Power(g, cycle, n)), Power(g, cycle, m)) == Turns(g, cycle, m - n)
  {
    hide *;
    if n <= m {
      var k: nat := m - n;
      TurnsOn(g, cycle, n, k);
      TurnsForward(g, cycle, k);
      assert n + k == m;
    } else {
      var k: nat := n - m;
      TurnsBack(g, cycle, m, k);
      TurnsBackward(g, cycle, k);
      assert m + k == n;
    }
  }

  lemma TurnsForward<T>(g: Group<T>, cycle: T, k: nat)
    ensures Turns(g, cycle, k) == Power(g, cycle, k)
  {}

  lemma TurnsBackward<T>(g: Group<T>, cycle: T, k: int)
    requires k > 0
    ensures Turns(g, cycle, -k) == g.inverse(Power(g, cycle, k))
  {}

  lemma TurnsOn<T(!new)>(g: Group<T>, cycle: T, n: nat, k: nat)
    requires Laws(g)
    ensures g.mul(g.inverse(Power(g, cycle, n)), Power(g, cycle, n + k)) == Power(g, cycle, k)
  {
    hide Laws, Power;
    PowerAdds(g, cycle, n, k);
    BackAndOn(g, Power(g, cycle, n), Power(g, cycle, k));
  }

  lemma TurnsBack<T(!new)>(g: Group<T>, cycle: T, m: nat, k: nat)
    requires Laws(g)
    ensures g.mul(g.inverse(Power(g, cycle, m + k)), Power(g, cycle, m)) == g.inverse(Power(g, cycle, k))
  {
    hide Laws, Power;
    PowerAdds(g, cycle, m, k);
    FurtherBack(g, Power(g, cycle, m), Power(g, cycle, k));
  }

  lemma ThroughStarts<T(!new)>(g: Group<T>, p: T, a: T, q: T, b: T)
    requires Laws(g)
    ensures g.mul(g.inverse(g.mul(p, a)), g.mul(q, b)) == g.mul(g.inverse(a), g.mul(g.mul(g.inverse(p), q), b))
  {
    hide Laws;
    InverseOfProduct(g, p, a);
    Assoc(g, g.inverse(a), g.inverse(p), g.mul(q, b));
    Assoc(g, g.inverse(p), q, b);
  }

  /** Where a looped trajectory stands, `n` cycles and `x` into it. */
  lemma StandsAt<T(!new)>(g: Group<T>, clip: Clip<T>, t: real, n: nat, x: real)
    requires clip.duration > 0.0 && t >= 0.0 && LiesAt(t, clip.duration, n, x)
    ensures Trajectory(g, clip, true, t)
            == if n > MAX_CYCLES || clip.relative(clip.duration).None? || clip.relative(x).None? then None
               else Some(g.mul(Power(g, clip.relative(clip.duration).value, n), clip.relative(x).value))
  {
    LiesOnce(t, clip.duration, n, x);
    hide Cycles, Remainder, Power, LiesAt;
  }

  lemma Standing<T(!new)>(g: Group<T>, clip: Clip<T>, t: real)
    ensures t >= 0.0 && clip.duration > 0.0 ==>
              forall n: nat, x: real :: LiesAt(t, clip.duration, n, x) ==>
                Trajectory(g, clip, true, t)
                == if n > MAX_CYCLES || clip.relative(clip.duration).None? || clip.relative(x).None? then None
                   else Some(g.mul(Power(g, clip.relative(clip.duration).value, n), clip.relative(x).value))
  {
    hide Trajectory, Power, LiesAt;
    forall n: nat, x: real | t >= 0.0 && clip.duration > 0.0 && LiesAt(t, clip.duration, n, x)
      ensures Trajectory(g, clip, true, t)
              == if n > MAX_CYCLES || clip.relative(clip.duration).None? || clip.relative(x).None? then None
                 else Some(g.mul(Power(g, clip.relative(clip.duration).value, n), clip.relative(x).value)) {
      StandsAt(g, clip, t, n, x);
    }
  }

  /** Every logical time lies in some cycle. */
  lemma LiesSomewhere(t: real, duration: real)
    requires t >= 0.0 && duration > 0.0
    ensures Cycles(t, duration) >= 0 && LiesAt(t, duration, Cycles(t, duration), Remainder(t, duration))
  {
    CyclesBound(t, duration);
  }

  lemma LoopedMotion<T(!new)>(g: Group<T>, clip: Clip<T>, from: real, to: real, n: nat, m: nat, x: real, y: real)
    requires Laws(g) && LiesAt(from, clip.duration, n, x) && LiesAt(to, clip.duration, m, y)
    requires clip.duration > 0.0 && from >= 0.0 && to >= 0.0
    ensures Delta(g, clip, true, from, to)
            == if n > MAX_CYCLES || m > MAX_CYCLES || clip.relative(clip.duration).None? then None
               else Between(g, clip, x, y, Some(Turns(g, clip.relative(clip.duration).value, m - n)))
  {
    StandsAt(g, clip, from, n, x);
    StandsAt(g, clip, to, m, y);
    hide Laws, Power, LiesAt, Turns, Trajectory;
    var cycle, a, b := clip.relative(clip.duration), clip.relative(x), clip.relative(y);
    if n <= MAX_CYCLES && m <= MAX_CYCLES && cycle.Some? && a.Some? && b.Some? {
      TurnsDiffer(g, cycle.value, n, m);
      ThroughStarts(g, Power(g, cycle.value, n), a.value, Power(g, cycle.value, m), b.value);
    }
  }

  lemma UnloopedMotion<T(!new)>(g: Group<T>, clip: Clip<T>, from: real, to: real)
    requires Laws(g) && clip.duration > 0.0 && from >= 0.0 && to >= 0.0
    ensures Delta(g, clip, false, from, to)
            == Between(g, clip, if from < clip.duration then from else clip.duration,
                       if to < clip.duration then to else clip.duration, Some(g.one))
  {
    hide Laws;
    var b := clip.relative(if to < clip.duration then to else clip.duration);
    if b.Some? {
      Unit(g, b.value);
    }
  }

  /** Evaluates one interval; a motion beyond the character's limits is dropped. Played once, the clip moves from its
      pose at the start to its pose at the end of the interval, and stands at its last pose afterwards. Looped, it
      moves through the rest of one cycle, the cycles in between, and the beginning of another. */
  method EvaluateRootMotion<T(!new)>(g: Group<T>, clip: Clip<T>, looped: bool, from: real, to: real,
                                     acceptable: T -> bool)
    returns (r: Option<T>)
    requires Laws(g)
    ensures var whole := Delta(g, clip, looped, from, to);
            r == if whole.Some? && acceptable(whole.value) then whole else None
    ensures clip.duration <= 0.0 || from < 0.0 || to < 0.0 ==> r == None
    ensures clip.duration > 0.0 && !looped && from >= 0.0 && to >= 0.0 ==>
              r == Accepted(Between(g, clip, if from < clip.duration then from else clip.duration,
                                    if to < clip.duration then to else clip.duration, Some(g.one)), acceptable)
    ensures clip.duration > 0.0 && looped && from >= 0.0 && to >= 0.0 ==>
              forall n: nat, m: nat, x: real, y: real ::
                LiesAt(from, clip.duration, n, x) && LiesAt(to, clip.duration, m, y) ==>
                  r == if n > MAX_CYCLES || m > MAX_CYCLES || clip.relative(clip.duration).None? then None
                       else Accepted(Between(g, clip, x, y, Some(Turns(g, clip.relative(clip.duration).value, m - n))),
                                     acceptable)
  {
    Readings(g, clip, looped, from, to);
    hide *;
    r := Evaluate(g, clip, looped, from, to, acceptable);
    AcceptedIs(Delta(g, clip, looped, from, to), acceptable);
  }

  lemma AcceptedIs<T(!new)>(whole: Option<T>, acceptable: T -> bool)
    ensures Accepted(whole, acceptable) == if whole.Some? && acceptable(whole.value) then whole else None
  {}

  method Evaluate<T(!new)>(g: Group<T>, clip: Clip<T>, looped: bool, from: real, to: real, acceptable: T -> bool)
    returns (r: Option<T>)
    requires Laws(g)
    ensures r == Accepted(Delta(g, clip, looped, from, to), acceptable)
  {
    hide Laws, Trajectory, Power, LiesAt;
    var a := TrajectoryAt(g, clip, looped, from);
    var b := TrajectoryAt(g, clip, looped, to);
    if a.None? || b.None? {
      return None;
    }
    var delta := g.mul(g.inverse(a.value), b.value);
    if !acceptable(delta) {
      return None;
    }
    return Some(delta);
  }

  /** The motion of an interval, in all its readings. */
  lemma Readings<T(!new)>(g: Group<T>, clip: Clip<T>, looped: bool, from: real, to: real)
    requires Laws(g)
    ensures clip.duration <= 0.0 || from < 0.0 || to < 0.0 ==> Delta(g, clip, looped, from, to) == None
    ensures clip.duration > 0.0 && !looped && from >= 0.0 && to >= 0.0 ==>
              Delta(g, clip, looped, from, to)
              == Between(g, clip, if from < clip.duration then from else clip.duration,
                         if to < clip.duration then to else clip.duration, Some(g.one))
    ensures clip.duration > 0.0 && looped && from >= 0.0 && to >= 0.0 ==>
              forall n: nat, m: nat, x: real, y: real ::
                LiesAt(from, clip.duration, n, x) && LiesAt(to, clip.duration, m, y) ==>
                  Delta(g, clip, looped, from, to)
                  == if n > MAX_CYCLES || m > MAX_CYCLES || clip.relative(clip.duration).None? then None
                     else Between(g, clip, x, y, Some(Turns(g, clip.relative(clip.duration).value, m - n)))
  {
    hide Laws, Between, LiesAt, Turns, Cycles, Remainder, Power;
    if clip.duration > 0.0 && from >= 0.0 && to >= 0.0 {
      hide Trajectory, Delta;
      if !looped {
        UnloopedMotion(g, clip, from, to);
      } else {
        forall n: nat, m: nat, x: real, y: real | LiesAt(from, clip.duration, n, x) && LiesAt(to, clip.duration, m, y)
          ensures Delta(g, clip, looped, from, to)
                  == if n > MAX_CYCLES || m > MAX_CYCLES || clip.relative(clip.duration).None? then None
                     else Between(g, clip, x, y, Some(Turns(g, clip.relative(clip.duration).value, m - n))) {
          LoopedMotion(g, clip, from, to, n, m, x, y);
        }
      }
    }
  }

  // A run of abutting intervals.

  datatype Interval = Interval(from: real, to: real)

  ghost predicate Abut(start: real, intervals: seq<Interval>)
    decreases |intervals|
  {
    intervals == [] || (intervals[0].from == start && Abut(intervals[0].to, intervals[1..]))
  }

  ghost function EndOf(start: real, intervals: seq<Interval>): real
    decreases |intervals|
  {
    if intervals == [] then start else EndOf(intervals[0].to, intervals[1..])
  }

  ghost predicate AllKnown<T(!new)>(g: Group<T>, clip: Clip<T>, looped: bool, start: real, intervals: seq<Interval>) {
    Trajectory(g, clip, looped, start).Some? && forall k: nat :: k < |intervals| ==>
      Known(g, clip, looped, intervals[k])
  }

  ghost predicate Known<T(!new)>(g: Group<T>, clip: Clip<T>, looped: bool, i: Interval) {
    Trajectory(g, clip, looped, i.from).Some? && Trajectory(g, clip, looped, i.to).Some?
  }

  /** The per-step motions, applied one after another. */
  ghost function Motion<T(!new)>(g: Group<T>, clip: Clip<T>, looped: bool, start: real, intervals: seq<Interval>): T
    requires AllKnown(g, clip, looped, start, intervals)
    decreases |intervals|
  {
    if intervals == [] then g.one
    else
      var first := intervals[0];
      assert Known(g, clip, looped, first);
      g.mul(Delta(g, clip, looped, first.from, first.to).value, Motion(g, clip, looped, first.to, intervals[1..]))
  }

  /** Adjacent motions compose to the motion over both. */
  lemma DeltasTelescope<T(!new)>(g: Group<T>, a: T, b: T, c: T)
    requires Laws(g)
    ensures g.mul(g.mul(g.inverse(a), b), g.mul(g.inverse(b), c)) == g.mul(g.inverse(a), c)
  {
    Assoc(g, g.inverse(a), b, g.mul(g.inverse(b), c));
    Assoc(g, b, g.inverse(b), c);
    Inverse(g, b);
    Unit(g, c);
  }

  /** However a span is cut into frames, and however often it wraps, the steps add up to the motion over the span. */
  lemma {:induction false} MotionIsWhole<T(!new)>(g: Group<T>, clip: Clip<T>, looped: bool, start: real,
                                                  intervals: seq<Interval>)
    requires Laws(g) && Abut(start, intervals) && AllKnown(g, clip, looped, start, intervals)
    ensures Delta(g, clip, looped, start, EndOf(start, intervals)) == Some(Motion(g, clip, looped, start, intervals))
    decreases |intervals|
  {
    hide Laws, Trajectory;
    var a := Trajectory(g, clip, looped, start).value;
    if intervals == [] {
      Inverse(g, a);
    } else {
      var first, rest := intervals[0], intervals[1..];
      assert Known(g, clip, looped, first);
      MotionIsWhole(g, clip, looped, first.to, rest);
      hide AllKnown, Known, Abut, Motion;
      var b, end := Trajectory(g, clip, looped, first.to).value, EndOf(first.to, rest);
      assert EndOf(start, intervals) == end;
      MotionStep(g, clip, looped, start, intervals);
      hide EndOf;
      DeltasTelescope(g, a, b, Trajectory(g, clip, looped, end).value);
    }
  }

  lemma MotionStep<T(!new)>(g: Group<T>, clip: Clip<T>, looped: bool, start: real, intervals: seq<Interval>)
    requires intervals != [] && Abut(start, intervals) && AllKnown(g, clip, looped, start, intervals)
    ensures AllKnown(g, clip, looped, intervals[0].to, intervals[1..])
    ensures Delta(g, clip, looped, start, intervals[0].to).Some?
    ensures Motion(g, clip, looped, start, intervals)
            == g.mul(Delta(g, clip, looped, start, intervals[0].to).value,
                     Motion(g, clip, looped, intervals[0].to, intervals[1..]))
  {
    hide Trajectory;
    assert Known(g, clip, looped, intervals[0]);
  }

  lemma {:induction false} AbutExtend(start: real, intervals: seq<Interval>, to: real)
    requires Abut(start, intervals)
    ensures Abut(start, intervals + [Interval(EndOf(start, intervals), to)])
    ensures EndOf(start, intervals + [Interval(EndOf(start, intervals), to)]) == to
    decreases |intervals|
  {
    var more := intervals + [Interval(EndOf(start, intervals), to)];
    if intervals == [] {
      assert more[1..] == [];
    } else {
      AbutExtend(intervals[0].to, intervals[1..], to);
      assert more[1..] == intervals[1..] + [Interval(EndOf(start, intervals), to)];
    }
  }

  // What becomes of motions beyond the limits.

  /** What the character receives: the per-step motions within the limits, one after another. */
  ghost function Applied<T(!new)>(g: Group<T>, clip: Clip<T>, looped: bool, start: real, intervals: seq<Interval>,
                                  acceptable: T -> bool): T
    requires AllKnown(g, clip, looped, start, intervals)
    decreases |intervals|
  {
    if intervals == [] then g.one
    else
      var first := intervals[0];
      assert Known(g, clip, looped, first);
      var delta := Delta(g, clip, looped, first.from, first.to).value;
      var rest := Applied(g, clip, looped, first.to, intervals[1..], acceptable);
      if acceptable(delta) then g.mul(delta, rest) else rest
  }

  /** The same motion, seen from the frame in which `at` leads back to the origin. */
  function Carried<T>(g: Group<T>, at: T, motion: T): T {
    g.mul(g.mul(at, motion), g.inverse(at))
  }

  /** The dropped motions, each carried to where the character stood when it was dropped. */
  ghost function Lost<T(!new)>(g: Group<T>, clip: Clip<T>, looped: bool, start: real, intervals: seq<Interval>,
                               acceptable: T -> bool, at: T): T
    requires AllKnown(g, clip, looped, start, intervals)
    decreases |intervals|
  {
    if intervals == [] then g.one
    else
      var first := intervals[0];
      assert Known(g, clip, looped, first);
      var delta := Delta(g, clip, looped, first.from, first.to).value;
      if acceptable(delta) then Lost(g, clip, looped, first.to, intervals[1..], acceptable, g.mul(at, delta))
      else g.mul(Carried(g, at, delta), Lost(g, clip, looped, first.to, intervals[1..], acceptable, at))
  }

  lemma CarriedBack<T(!new)>(g: Group<T>, at: T, motion: T, rest: T)
    requires Laws(g)
    ensures g.mul(Carried(g, at, motion), g.mul(at, rest)) == g.mul(at, g.mul(motion, rest))
  {
    hide Laws;
    var there, back := g.mul(at, motion), g.inverse(at);
    Assoc(g, there, back, g.mul(at, rest));
    Assoc(g, back, at, rest);
    Inverse(g, at);
    Unit(g, rest);
    Assoc(g, at, motion, rest);
  }

  lemma CarriedIsOne<T(!new)>(g: Group<T>, at: T, motion: T)
    requires Laws(g)
    ensures Carried(g, at, motion) == g.one <==> motion == g.one
  {
    hide Laws;
    CarriedBack(g, at, motion, g.one);
    Unit(g, at);
    Unit(g, motion);
    Inverse(g, at);
    if Carried(g, at, motion) == g.one {
      Unit(g, g.mul(at, g.one));
      Cancel(g, at, motion, g.one);
    }
  }

  lemma Cancel<T(!new)>(g: Group<T>, a: T, b: T, c: T)
    requires Laws(g)
    ensures g.mul(a, b) == g.mul(a, c) <==> b == c
  {
    hide Laws;
    Assoc(g, g.inverse(a), a, b);
    Assoc(g, g.inverse(a), a, c);
    Inverse(g, a);
    Unit(g, b);
    Unit(g, c);
  }

  lemma CancelRight<T(!new)>(g: Group<T>, a: T, b: T)
    requires Laws(g)
    ensures g.mul(a, b) == b <==> a == g.one
  {
    hide Laws;
    Assoc(g, a, b, g.inverse(b));
    Inverse(g, b);
    Unit(g, a);
    Unit(g, b);
  }

  /** Everything the clip moved is what the character received and what was lost, in that frame. */
  lemma {:induction false} LostAndApplied<T(!new)>(g: Group<T>, clip: Clip<T>, looped: bool, start: real,
                                                   intervals: seq<Interval>,
                                                   acceptable: T -> bool, at: T)
    requires Laws(g) && AllKnown(g, clip, looped, start, intervals)
    ensures g.mul(at, Motion(g, clip, looped, start, intervals))
            == g.mul(Lost(g, clip, looped, start, intervals, acceptable, at),
                     g.mul(at, Applied(g, clip, looped, start, intervals, acceptable)))
    decreases |intervals|
  {
    hide Laws, Trajectory, Carried;
    if intervals == [] {
      Unit(g, g.mul(at, g.one));
      return;
    }
    var first, rest := intervals[0], intervals[1..];
    assert Known(g, clip, looped, first);
    var delta := Delta(g, clip, looped, first.from, first.to).value;
    var motion, applied := Motion(g, clip, looped, first.to, rest),
      Applied(g, clip, looped, first.to, rest, acceptable);
    hide AllKnown, Known;
    if acceptable(delta) {
      LostAndApplied(g, clip, looped, first.to, rest, acceptable, g.mul(at, delta));
      Assoc(g, at, delta, motion);
      Assoc(g, at, delta, applied);
    } else {
      LostAndApplied(g, clip, looped, first.to, rest, acceptable, at);
      CarriedBack(g, at, delta, motion);
      Assoc(g, Carried(g, at, delta), Lost(g, clip, looped, first.to, rest, acceptable, at), g.mul(at, applied));
    }
  }

  /** The character has moved as the clip did over the span exactly when the dropped motions come to nothing. */
  lemma AppliedIsWhole<T(!new)>(g: Group<T>, clip: Clip<T>, looped: bool, start: real, intervals: seq<Interval>,
                                acceptable: T -> bool)
    requires Laws(g) && Abut(start, intervals) && AllKnown(g, clip, looped, start, intervals)
    ensures Delta(g, clip, looped, start, EndOf(start, intervals))
            == Some(Applied(g, clip, looped, start, intervals, acceptable))
            <==> Lost(g, clip, looped, start, intervals, acceptable, g.one) == g.one
  {
    hide Laws, Abut, AllKnown, Motion, Lost, Applied, Delta, EndOf;
    MotionIsWhole(g, clip, looped, start, intervals);
    LostAndApplied(g, clip, looped, start, intervals, acceptable, g.one);
    var motion := Motion(g, clip, looped, start, intervals);
    var applied := Applied(g, clip, looped, start, intervals, acceptable);
    Unit(g, motion);
    Unit(g, applied);
    CancelRight(g, Lost(g, clip, looped, start, intervals, acceptable, g.one), applied);
  }

  /** The interval's motion is known and within the limits. */
  ghost predicate Within<T(!new)>(g: Group<T>, clip: Clip<T>, looped: bool, i: Interval, acceptable: T -> bool) {
    Known(g, clip, looped, i) && acceptable(Delta(g, clip, looped, i.from, i.to).value)
  }

  /** Nothing is lost while every motion is within the limits. */
  lemma {:induction false} NothingLost<T(!new)>(g: Group<T>, clip: Clip<T>, looped: bool, start: real,
                                                intervals: seq<Interval>,
                                                acceptable: T -> bool, at: T)
    requires AllKnown(g, clip, looped, start, intervals)
    requires forall k: nat :: k < |intervals| ==> Within(g, clip, looped, intervals[k], acceptable)
    ensures Lost(g, clip, looped, start, intervals, acceptable, at) == g.one
    decreases |intervals|
  {
    hide Trajectory;
    if intervals != [] {
      var first, rest := intervals[0], intervals[1..];
      assert Within(g, clip, looped, first, acceptable);
      var delta := Delta(g, clip, looped, first.from, first.to).value;
      NothingLost(g, clip, looped, first.to, rest, acceptable, g.mul(at, delta));
    }
  }

  /** A single motion beyond the limits is never made up for, as long as standing still is within them. */
  lemma {:induction false} OneDropIsLost<T(!new)>(g: Group<T>, clip: Clip<T>, looped: bool, start: real,
                                                  intervals: seq<Interval>,
                                                  acceptable: T -> bool, at: T, dropped: nat)
    requires Laws(g) && AllKnown(g, clip, looped, start, intervals) && acceptable(g.one)
    requires dropped < |intervals|
    requires forall k: nat :: k < |intervals| ==> (Within(g, clip, looped, intervals[k], acceptable) <==> k != dropped)
    ensures Lost(g, clip, looped, start, intervals, acceptable, at) != g.one
    decreases |intervals|
  {
    hide Laws, Trajectory, Carried;
    var first, rest := intervals[0], intervals[1..];
    assert Known(g, clip, looped, first);
    assert Within(g, clip, looped, first, acceptable) <==> 0 != dropped;
    var delta := Delta(g, clip, looped, first.from, first.to).value;
    if dropped > 0 {
      OneDropIsLost(g, clip, looped, first.to, rest, acceptable, g.mul(at, delta), dropped - 1);
    } else {
      NothingLost(g, clip, looped, first.to, rest, acceptable, at);
      Unit(g, Carried(g, at, delta));
      CarriedIsOne(g, at, delta);
    }
  }

  /** A clip that goes out by five and comes back. */
  function OutAndBack(): Clip<int> {
    Clip(t => Some(if t == 1.0 then 5 else 0), 2.0)
  }

  function Shifts(): Group<int> {
    Group((a, b) => a + b, 0, a => -a)
  }

  /** Two dropped motions may make up for each other. */
  lemma DropsMayCancel()
    ensures var g, clip, intervals := Shifts(), OutAndBack(), [Interval(0.0, 1.0), Interval(1.0, 2.0)];
            var acceptable := (motion: int) => -1 <= motion <= 1;
            && AllKnown(g, clip, false, 0.0, intervals)
            && (forall k: nat :: k < 2 ==> !Within(g, clip, false, intervals[k], acceptable))
            && Lost(g, clip, false, 0.0, intervals, acceptable, 0) == 0
  {
    var g, clip, intervals := Shifts(), OutAndBack(), [Interval(0.0, 1.0), Interval(1.0, 2.0)];
    var acceptable := (motion: int) => -1 <= motion <= 1;
    assert Delta(g, clip, false, 0.0, 1.0) == Some(5) && Delta(g, clip, false, 1.0, 2.0) == Some(-5);
    assert intervals[1..] == [Interval(1.0, 2.0)] && intervals[1..][1..] == [];
    assert Lost(g, clip, false, 1.0, intervals[1..], acceptable, 0) == -5;
  }

  /** A track whose loop was turned off after its last cycle may step back to the end, but does not move. */
  lemma SteppingBackIsStill<T(!new)>(g: Group<T>, clip: Clip<T>, from: real)
    requires Laws(g) && from >= clip.duration > 0.0 && clip.relative(clip.duration).Some?
    ensures Delta(g, clip, false, from, clip.duration) == Some(g.one)
  {
    Inverse(g, clip.relative(clip.duration).value);
  }
}
