/** Which cached payloads must go to make room, and which of them take a pending slot with them. */
module CacheSpace {
  import opened Options
  import opened DependencyDemand
  import opened ResidencyState

  predicate Evictable(r: Record) {
    r.cached && r.residency != Acquiring && (r.root || Desire(r) == 0)
  }

  function Evicted(r: Record): Record {
    r.(cached := false, encodedBytes := 0,
       prepared := if r.root then r.prepared else false,
       residency := if r.root then r.residency else Unavailable)
  }

  /** The bytes that evicting everything evictable from unit `n` on, except `preserved`, frees. */
  function Freed(rs: seq<Record>, preserved: nat, n: nat): nat
    decreases |rs| - n
  {
    if n >= |rs| then 0
    else Freed(rs, preserved, n + 1) + if n != preserved && Evictable(rs[n]) then rs[n].encodedBytes else 0
  }

  /** Unit `j` is evicted for `need` bytes in all: it can be, and everything evictable above it is not enough. */
  predicate MustGo(rs: seq<Record>, preserved: nat, need: nat, limit: nat, j: nat)
    requires j < |rs|
  {
    j != preserved && Evictable(rs[j]) && need > limit + Freed(rs, preserved, j + 1)
  }

  /** How many Requested units from `n` on must go; each leaves its pending slot behind. */
  function Leaks(rs: seq<Record>, preserved: nat, need: nat, limit: nat, n: nat): nat
    decreases |rs| - n
  {
    if n >= |rs| then 0
    else Leaks(rs, preserved, need, limit, n + 1)
         + if MustGo(rs, preserved, need, limit, n) then IsRequested(rs[n]) else 0
  }

  /** From unit `n` on, exactly the units that must go are evicted. */
  ghost predicate Cleared(rs: seq<Record>, ts: seq<Record>, preserved: nat, need: nat, limit: nat, n: nat) {
    && |ts| == |rs|
    && forall j: nat :: j < |rs| ==>
         ts[j] == if n <= j && MustGo(rs, preserved, need, limit, j) then Evicted(rs[j]) else rs[j]
  }

  lemma {:induction false} FreedGrows(rs: seq<Record>, preserved: nat, m: nat, n: nat)
    requires m <= n
    ensures Freed(rs, preserved, m) >= Freed(rs, preserved, n)
    decreases n - m
  {
    hide Evictable;
    if m < n {
      FreedGrows(rs, preserved, m + 1, n);
    }
  }

  lemma FitsStays(rs: seq<Record>, ts: seq<Record>, preserved: nat, need: nat, limit: nat, n: nat)
    requires n < |rs| && need <= limit + Freed(rs, preserved, n + 1) && Cleared(rs, ts, preserved, need, limit, n + 1)
    ensures Cleared(rs, ts, preserved, need, limit, n)
    ensures Leaks(rs, preserved, need, limit, n) == Leaks(rs, preserved, need, limit, n + 1)
  {
    hide Evictable, Evicted, Freed;
  }

  /** Once the bytes fit, nothing further down goes. */
  lemma {:induction false} ClearStop(rs: seq<Record>, ts: seq<Record>, preserved: nat, need: nat, limit: nat, n: nat)
    requires Cleared(rs, ts, preserved, need, limit, n) && n <= |rs| && need <= limit + Freed(rs, preserved, n)
    ensures Cleared(rs, ts, preserved, need, limit, 0)
    ensures Leaks(rs, preserved, need, limit, 0) == Leaks(rs, preserved, need, limit, n)
    decreases n
  {
    hide *;
    if n > 0 {
      FreedGrows(rs, preserved, n - 1, n);
      FitsStays(rs, ts, preserved, need, limit, n - 1);
      ClearStop(rs, ts, preserved, need, limit, n - 1);
    }
  }

  /** While they do not fit, the next unit down goes if it can. */
  lemma ClearStep(rs: seq<Record>, ts: seq<Record>, preserved: nat, need: nat, limit: nat, n: nat)
    requires n < |rs| && Cleared(rs, ts, preserved, need, limit, n + 1) && need > limit + Freed(rs, preserved, n + 1)
    ensures ts[n] == rs[n]
    ensures n != preserved && Evictable(rs[n]) ==>
              && Cleared(rs, ts[n := Evicted(ts[n])], preserved, need, limit, n)
              && Leaks(rs, preserved, need, limit, n) == Leaks(rs, preserved, need, limit, n + 1) + IsRequested(rs[n])
              && Freed(rs, preserved, n) == Freed(rs, preserved, n + 1) + rs[n].encodedBytes
    ensures n == preserved || !Evictable(rs[n]) ==>
              && Cleared(rs, ts, preserved, need, limit, n)
              && Leaks(rs, preserved, need, limit, n) == Leaks(rs, preserved, need, limit, n + 1)
              && Freed(rs, preserved, n) == Freed(rs, preserved, n + 1)
  {
    hide Evictable, Evicted;
  }

  lemma ClearNothing(rs: seq<Record>, preserved: nat, need: nat, limit: nat)
    ensures Cleared(rs, rs, preserved, need, limit, |rs|)
    ensures Freed(rs, preserved, |rs|) == 0 && Leaks(rs, preserved, need, limit, |rs|) == 0
  {}

  /** A pending slot is lost exactly when a Requested unit must go. */
  lemma {:induction false} LeaksMean(rs: seq<Record>, preserved: nat, need: nat, limit: nat, n: nat)
    ensures Leaks(rs, preserved, need, limit, n) > 0 <==>
            exists j: nat :: n <= j < |rs| && MustGo(rs, preserved, need, limit, j) && rs[j].residency == Requested
    decreases |rs| - n
  {
    hide MustGo;
    if n < |rs| {
      LeaksMean(rs, preserved, need, limit, n + 1);
      if j: nat :| n <= j < |rs| && MustGo(rs, preserved, need, limit, j) && rs[j].residency == Requested {
        assert j == n || n + 1 <= j;
      }
    }
  }

  lemma LeaksBehindFirst(a: Record, b: Record, need: nat, limit: nat)
    ensures Leaks([a, b], 0, need, limit, 0) == if Evictable(b) && need > limit then IsRequested(b) else 0
  {
    hide Evictable, IsRequested;
    var rs := [a, b];
    assert Freed(rs, 0, 2) == 0 && Leaks(rs, 0, need, limit, 2) == 0;
    assert Leaks(rs, 0, need, limit, 1) == if MustGo(rs, 0, need, limit, 1) then IsRequested(b) else 0;
    assert Leaks(rs, 0, need, limit, 0) == Leaks(rs, 0, need, limit, 1);
  }

  /** Nothing is lost while everything fits. */
  lemma {:induction false} RoomLeaksNothing(rs: seq<Record>, preserved: nat, need: nat, limit: nat, n: nat)
    requires need <= limit
    ensures Leaks(rs, preserved, need, limit, n) == 0
    decreases |rs| - n
  {
    if n < |rs| {
      RoomLeaksNothing(rs, preserved, need, limit, n + 1);
    }
  }

  /** The pending slots that settling report `c` in state `s` loses. */
  function LeaksFor(l: Limits, s: State, c: Completion): nat {
    if c.ManifestDone? || c.index >= |s.records| then 0
    else
      var r := s.records[c.index];
      if Desire(r) == 0 || r.cancelFlag == Some(true) || c.outcome.Rejected? || r.cached then 0
      else Leaks(s.records, c.index, c.reserved + s.cachedBytes, l.maxCachedBytes, 0)
  }

  /** The pending slots that the first of some reports loses. */
  function LeaksOf(l: Limits, s: State, cs: seq<Completion>): nat {
    if cs == [] then 0 else LeaksFor(l, s, cs[0])
  }

  lemma ManifestLeaksNothing(l: Limits, s: State, c: Completion)
    requires c.ManifestDone?
    ensures LeaksFor(l, s, c) == 0
  {}

  lemma LeaksSame(l: Limits, s: State, t: State, cs: seq<Completion>)
    requires t.records == s.records && t.cachedBytes == s.cachedBytes
    ensures LeaksOf(l, t, cs) == LeaksOf(l, s, cs)
  {}

  /** A wanted first unit's payload that does not fit beside a released but still Requested second unit. */
  lemma LeaksBesideFirst(l: Limits, s: State, a: Record, b: Record, c: Completion)
    requires s.records == [a, b] && c.ContentDone? && c.index == 0 && c.outcome.Prepared?
    requires Desire(a) != 0 && a.cancelFlag != Some(true) && !a.cached && Evictable(b) && b.residency == Requested
    requires c.reserved + s.cachedBytes > l.maxCachedBytes
    ensures LeaksFor(l, s, c) == 1
  {
    hide Leaks, Evictable, Desire;
    LeaksBehindFirst(a, b, c.reserved + s.cachedBytes, l.maxCachedBytes);
  }
}
