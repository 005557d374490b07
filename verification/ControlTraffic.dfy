/** The periodic control traffic that a background configuration sets wire aside for. */
module ControlTraffic {
  import opened WireBudget

  /** For each kind of timer, the instants at which it fires, in order. */
  datatype Endpoint = Endpoint(timers: seq<seq<real>>)

  /** A timer never fires twice within its minimum interval. */
  ghost predicate Spaced(times: seq<real>, period: Word) {
    forall i: nat, j: nat :: i < |times| && j == i + 1 && j < |times| ==> times[j] >= times[i] + period as real
  }

  /** How often the timer fires from `from` through `to`. */
  function Firings(times: seq<real>, from: real, to: real): nat {
    if times == [] then 0
    else
      var last := times[|times| - 1];
      Firings(times[..|times| - 1], from, to) + (if from <= last <= to then 1 else 0)
  }

  lemma SpacedPrefix(times: seq<real>, period: Word)
    requires Spaced(times, period) && times != []
    ensures Spaced(times[..|times| - 1], period)
    ensures |times| > 1 ==> times[|times| - 1] >= times[|times| - 2] + period as real
  {
    var front := times[..|times| - 1];
    assert forall i: nat :: i < |front| ==> front[i] == times[i];
  }

  lemma {:induction false} NoneBefore(times: seq<real>, period: Word, from: real, to: real)
    requires Spaced(times, period) && times != [] && times[|times| - 1] < from
    ensures Firings(times, from, to) == 0
  {
    SpacedPrefix(times, period);
    if |times| > 1 {
      NoneBefore(times[..|times| - 1], period, from, to);
    }
  }

  function Earlier(a: real, b: real): real { if a <= b then a else b }

  /** All firings but one are a whole period apart. */
  lemma {:induction false} FiringsSpread(times: seq<real>, period: Word, from: real, to: real)
    requires Spaced(times, period) && times != []
    ensures Firings(times, from, to) > 0 ==>
              (Firings(times, from, to) - 1) as real * period as real <= Earlier(times[|times| - 1], to) - from
  {
    SpacedPrefix(times, period);
    var front, last := times[..|times| - 1], times[|times| - 1];
    if |times| == 1 {
      assert Firings(front, from, to) == 0;
    } else if last < from {
      NoneBefore(times, period, from, to);
    } else {
      FiringsSpread(front, period, from, to);
      var n := Firings(front, from, to);
      assert n > 0 ==> (n - 1) as real * period as real + period as real == n as real * period as real;
    }
  }

  /** The most often one timer can fire in `t` seconds. */
  ghost function TimerShare(period: Word, t: real): real
    requires period > 0
  {
    t * (1.0 / period as real) + 1.0
  }

  lemma WindowBound(n: nat, period: Word, t: real)
    requires period > 0 && t >= 0.0 && (n > 0 ==> (n - 1) as real * period as real <= t)
    ensures n as real <= TimerShare(period, t)
  {
    if n > 0 {
      DivideBound((n - 1) as real, period as real, t);
    } else {
      Nonnegative(t, period as real);
    }
  }

  lemma FiringsBound(times: seq<real>, period: Word, from: real, to: real)
    requires Spaced(times, period) && period > 0 && from <= to
    ensures Firings(times, from, to) as real <= TimerShare(period, to - from)
  {
    var n := Firings(times, from, to);
    if times != [] && n > 0 {
      FiringsSpread(times, period, from, to);
    }
    hide Firings, Spaced;
    WindowBound(n, period, to - from);
  }

  lemma Nonnegative(t: real, p: real)
    requires t >= 0.0 && p > 0.0
    ensures t * (1.0 / p) >= 0.0
  {}

  lemma DivideBound(n: real, p: real, t: real)
    requires p > 0.0 && n * p <= t
    ensures n <= t * (1.0 / p)
  {
    var f := 1.0 / p;
    assert f > 0.0 && p * f == 1.0;
    assert (t - n * p) * f >= 0.0;
    assert (n * p) * f == n * (p * f);
    assert (t - n * p) * f == t * f - (n * p) * f;
  }

  ghost predicate Disciplined(e: Endpoint, periods: seq<Word>) {
    |e.timers| == |periods| && forall k: nat :: k < |periods| ==> Spaced(e.timers[k], periods[k])
  }

  function EndpointFirings(e: Endpoint, n: nat, from: real, to: real): nat
    requires n <= |e.timers|
  {
    if n == 0 then 0 else EndpointFirings(e, n - 1, from, to) + Firings(e.timers[n - 1], from, to)
  }

  /** The most often the first `n` timers together can fire in `t` seconds. */
  ghost function Share(periods: seq<Word>, n: nat, t: real): real
    requires n <= |periods| && Positive(periods)
  {
    t * Frequency(periods, n) + n as real
  }

  lemma ShareStep(periods: seq<Word>, n: nat, t: real)
    requires 0 < n <= |periods| && Positive(periods)
    ensures Share(periods, n, t) == Share(periods, n - 1, t) + TimerShare(periods[n - 1], t)
  {
    Spread(t, Frequency(periods, n - 1), 1.0 / periods[n - 1] as real);
  }

  lemma {:induction false} EndpointBound(e: Endpoint, periods: seq<Word>, n: nat, from: real, to: real)
    requires Positive(periods) && Disciplined(e, periods) && n <= |periods| && from <= to
    ensures EndpointFirings(e, n, from, to) as real <= Share(periods, n, to - from)
  {
    if n > 0 {
      hide Share, TimerShare, Firings, Spaced;
      EndpointBound(e, periods, n - 1, from, to);
      FiringsBound(e.timers[n - 1], periods[n - 1], from, to);
      ShareStep(periods, n, to - from);
    }
  }

  /** Each firing puts a request and a confirmation on the wire, neither larger than `packet`. */
  function Traffic(endpoints: seq<Endpoint>, n: nat, kinds: nat, packet: nat, from: real, to: real): nat
    requires n <= |endpoints| && forall e :: e in endpoints ==> |e.timers| == kinds
  {
    if n == 0 then 0
    else
      Traffic(endpoints, n - 1, kinds, packet, from, to)
        + 2 * packet * EndpointFirings(endpoints[n - 1], kinds, from, to)
  }

  ghost predicate AllDisciplined(endpoints: seq<Endpoint>, periods: seq<Word>) {
    forall e :: e in endpoints ==> Disciplined(e, periods)
  }

  /** The wire bytes of `n` endpoints whose timers fire at most `share` times each. */
  ghost function Bytes(n: nat, packet: nat, share: real): real {
    n as real * ((2 * packet) as real * share)
  }

  lemma BytesStep(n: nat, packet: nat, share: real, count: nat)
    requires n > 0 && count as real <= share
    ensures Bytes(n - 1, packet, share) + (2 * packet * count) as real <= Bytes(n, packet, share)
  {
    var m := (2 * packet) as real;
    RealProduct(2 * packet, count);
    Scale(m, count as real, share);
    OneMore(n, m * share);
  }

  lemma {:induction false} TrafficBound(endpoints: seq<Endpoint>, n: nat, periods: seq<Word>, packet: nat, from: real,
                                        to: real)
    requires Positive(periods) && AllDisciplined(endpoints, periods) && n <= |endpoints| && from <= to
    ensures Traffic(endpoints, n, |periods|, packet, from, to) as real <= Bytes(n, packet,
                                                                                Share(periods, |periods|, to - from))
  {
    if n > 0 {
      hide Share, Bytes, EndpointFirings;
      TrafficBound(endpoints, n - 1, periods, packet, from, to);
      assert endpoints[n - 1] in endpoints;
      EndpointBound(endpoints[n - 1], periods, |periods|, from, to);
      BytesStep(n, packet, Share(periods, |periods|, to - from),
                EndpointFirings(endpoints[n - 1], |periods|, from, to));
    }
  }

  lemma OneMore(n: nat, x: real)
    requires n > 0
    ensures n as real * x == (n - 1) as real * x + x
  {}

  lemma Scale(c: real, x: real, y: real)
    requires c >= 0.0 && x <= y
    ensures c * x <= c * y
  {
    assert c * (y - x) >= 0.0;
    assert c * y == c * x + c * (y - x);
  }

  /** Twice as many endpoints as peers need no more than the load and the burst. */
  lemma BytesCovered(n: nat, peers: nat, packet: nat, periods: seq<Word>, t: real)
    requires Positive(periods) && |periods| == 3 && n <= 2 * peers && t >= 0.0
    ensures Bytes(n, packet, Share(periods, 3, t)) <= t * Load(peers, packet, periods)
            + (3 * PairBytes(peers, packet)) as real
  {
    var f := Frequency(periods, 3);
    var each := (2 * packet) as real * (t * f + 3.0);
    assert Share(periods, 3, t) == t * f + 3.0;
    assert Bytes(n, packet, Share(periods, 3, t)) == n as real * each;
    assert Load(peers, packet, periods) == PairBytes(peers, packet) as real * f;
    hide *;
    EachNonnegative(packet, t, f);
    Scale(each, n as real, (2 * peers) as real);
    Commute(each, n as real);
    Commute(each, (2 * peers) as real);
    Gather(peers, packet, t, f);
    assert (2 * peers) as real * each == t * Load(peers, packet, periods) + (3 * PairBytes(peers, packet)) as real;
  }

  /** In every window, the control traffic of all peers stays within the configured rate and burst. */
  lemma BackgroundCovers(endpoints: seq<Endpoint>, periods: seq<Word>, peers: nat, packet: nat, rate: nat, from: real,
                         to: real)
    requires Positive(periods) && |periods| == 3 && AllDisciplined(endpoints, periods) && from <= to
    requires |endpoints| <= 2 * peers && IsCeiling(rate, Load(peers, packet, periods))
    ensures Traffic(endpoints, |endpoints|, 3, packet, from, to) as real
            <= rate as real * (to - from) + (3 * PairBytes(peers, packet)) as real
  {
    var t, load, burst := to - from, Load(peers, packet, periods), (3 * PairBytes(peers, packet)) as real;
    assert load <= rate as real;
    hide *;
    TrafficBound(endpoints, |endpoints|, periods, packet, from, to);
    BytesCovered(|endpoints|, peers, packet, periods, t);
    Scale(t, load, rate as real);
    assert t * load + burst <= t * rate as real + burst;
    Commute(t, rate as real);
  }

  lemma Commute(x: real, y: real)
    ensures x * y == y * x
  {}

  lemma EachNonnegative(packet: nat, t: real, f: real)
    requires t >= 0.0 && f >= 0.0
    ensures (2 * packet) as real * (t * f + 3.0) >= 0.0
  {
    Scale(t, 0.0, f);
    Scale((2 * packet) as real, 0.0, t * f + 3.0);
  }

  lemma Gather(peers: nat, packet: nat, t: real, f: real)
    ensures (2 * peers) as real * ((2 * packet) as real * (t * f + 3.0))
            == t * (PairBytes(peers, packet) as real * f) + (3 * PairBytes(peers, packet)) as real
  {
    var p, m := (2 * peers) as real, (2 * packet) as real;
    RealProduct(2 * peers, 2 * packet);
    assert (2 * peers) * (2 * packet) == PairBytes(peers, packet);
    Expand(p, m, t, f);
  }

  lemma Expand(p: real, m: real, t: real, f: real)
    ensures p * (m * (t * f + 3.0)) == t * ((p * m) * f) + 3.0 * (p * m)
  {
    assert m * (t * f + 3.0) == m * (t * f) + m * 3.0;
    assert p * (m * (t * f) + m * 3.0) == p * (m * (t * f)) + p * (m * 3.0);
  }
}
