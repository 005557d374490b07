/** What a tick decides about units, in terms of the states before and after it alone. */
module TickOutcome {
  import opened DependencyGraph
  import opened Options
  import opened DependencyDemand
  import opened ResidencyState
  import opened CacheSpace
  import opened Settlement
  import opened TickPasses

  /** Nothing about a Resident unit's place in the world, nor about who asked for a unit, differs. */
  ghost predicate Kept(rs: seq<Record>, ts: seq<Record>) {
    && |rs| == |ts|
    && forall j :: 0 <= j < |rs| ==>
         && (ts[j].residency == Resident <==> rs[j].residency == Resident)
         && (ts[j].root <==> rs[j].root) && Desire(ts[j]) == Desire(rs[j])
         && (rs[j].residency == Available && Desire(rs[j]) != 0 && !rs[j].root ==> ts[j] == rs[j])
  }

  ghost predicate Rooted(rs: seq<Record>) {
    forall j :: 0 <= j < |rs| ==> (rs[j].residency == Resident <==> rs[j].root)
  }

  lemma KeptTwice(rs: seq<Record>, ss: seq<Record>, ts: seq<Record>)
    requires Kept(rs, ss) && Kept(ss, ts)
    ensures Kept(rs, ts)
  {}

  lemma ClearedKeeps(rs: seq<Record>, ts: seq<Record>, preserved: nat, need: nat, limit: nat)
    requires Cleared(rs, ts, preserved, need, limit, 0) && Rooted(rs)
    ensures Kept(rs, ts) && Rooted(ts)
  {}

  lemma FinishedKeeps(l: Limits, s: State, t: State, i: nat, reserved: nat, outcome: Outcome)
    requires Finished(l, s, t, i, reserved, outcome) && Rooted(s.records)
    ensures Kept(s.records, t.records) && Rooted(t.records)
  {
    hide Cleared, Freed, Leaks, DependenciesResident;
    var r := s.records[i];
    if outcome.Prepared? && Desire(r) != 0 && r.cancelFlag != Some(true) && !r.cached {
      var m := t.records[i := r];
      ClearedKeeps(s.records, m, i, reserved + s.cachedBytes, l.maxCachedBytes);
      assert t.records == m[i := t.records[i]];
    }
  }

  lemma SettledKeeps(l: Limits, full: bool, s: State, t: State)
    requires Settled(l, full, s, t) && s.manifest.Some? && Rooted(s.records)
    ensures t.manifest == s.manifest && Kept(s.records, t.records) && Rooted(t.records)
  {
    hide Rooted, Kept, Stored;
    if s.taken[0].ContentDone? {
      FinishedKeeps(l, s, t, s.taken[0].index, s.taken[0].reserved, s.taken[0].outcome);
    }
  }

  lemma {:induction false} BatchKeeps(l: Limits, full: bool, states: seq<State>, k: nat)
    requires AllSettled(l, full, states) && k < |states|
    requires states[0].manifest.Some? && Rooted(states[0].records)
    ensures states[k].manifest == states[0].manifest
    ensures Kept(states[0].records, states[k].records) && Rooted(states[k].records)
  {
    hide Settled;
    if k > 0 {
      BatchKeeps(l, full, states, k - 1);
      assert Settled(l, full, states[k - 1], states[k - 1 + 1]);
      SettledKeeps(l, full, states[k - 1], states[k]);
      KeptTwice(states[0].records, states[k - 1].records, states[k].records);
    }
  }

  lemma RequestsKeep(l: Limits, s: State, t: State)
    requires Requests(l, s, t)
    ensures t.manifest == s.manifest && Kept(s.records, t.records)
  {
    hide Launchable, PendingAt, LaunchesCounted;
    forall j | 0 <= j < |s.records|
      ensures (t.records[j].residency == Resident <==> s.records[j].residency == Resident)
              && (t.records[j].root <==> s.records[j].root) && Desire(t.records[j]) == Desire(s.records[j])
              && (s.records[j].residency == Available && Desire(s.records[j]) != 0 ==> t.records[j] == s.records[j]) {
      assert AskedFor(l, s, t.records, j);
    }
  }

  /** Resident before the request pass, or admitted since; and undesired before eviction, or kept by it. */
  ghost predicate Outcomes(l: Limits, w: World, s: State, p: Phases, t: State) {
    && s.manifest.Some? && Whole(s, t.records) && p.asked.manifest == p.admitted.manifest == s.manifest
    && Whole(p.asked, p.admitted.records) && Whole(p.admitted, p.evicted.records) && |p.asked.records| == |s.records|
    && Kept(s.records, p.asked.records) && Kept(p.evicted.records, t.records)
    && forall j: nat :: j < |s.records| ==>
         && AdmittedAt(l, w, p.asked, p.admitted.records, j) && EvictedAt(l, w, p.admitted, p.evicted.records, j)
  }

  lemma TickHasOutcomes(l: Limits, full: bool, w: World, s: State, p: Phases, t: State)
    requires Inv(l, s) && s.manifest.Some? && Ticked(l, full, w, s, p, t)
    ensures Outcomes(l, w, s, p, t) && t.manifest == s.manifest && Requests(l, p.evicted, t)
  {
    hide Settled, AdmittedAt, EvictedAt, AskedFor, LaunchesCounted, Kept;
    InvIsRooted(l, s);
    var last := |p.settling| - 1;
    BatchKeeps(l, full, p.settling, last);
    RequestsKeep(l, p.settling[last], p.asked);
    RequestsKeep(l, p.evicted, t);
    hide Rooted;
    KeptTwice(s.records, p.settling[last].records, p.asked.records);
    hide AllSettled;
    KeptSizes(s.records, p.asked.records);
    KeptSizes(p.evicted.records, t.records);
  }

  lemma KeptSizes(rs: seq<Record>, ts: seq<Record>)
    requires Kept(rs, ts)
    ensures |rs| == |ts|
  {}

  lemma InvIsRooted(l: Limits, s: State)
    requires Inv(l, s)
    ensures Rooted(s.records) && (s.manifest.Some? ==> Whole(s, s.records))
  {
    forall j | 0 <= j < |s.records| ensures s.records[j].residency == Resident <==> s.records[j].root {
      RecordAt(l, s, j);
    }
  }

  /** What happened to unit `j`, phase by phase, follows from the states before and after the tick. */
  lemma Reading(l: Limits, w: World, s: State, p: Phases, t: State, j: nat)
    requires Outcomes(l, w, s, p, t) && j < |s.records|
    ensures p.asked.records[j].residency == Resident <==> s.records[j].residency == Resident
    ensures p.admitted.records[j].residency == Resident <==>
            s.records[j].residency == Resident || t.records[j].residency == Resident
    ensures p.evicted.records[j].residency == Resident <==> t.records[j].residency == Resident
    ensures Desire(p.asked.records[j]) == Desire(p.admitted.records[j]) == Desire(s.records[j])
  {
    hide Launchable;
    assert AdmittedAt(l, w, p.asked, p.admitted.records, j) && EvictedAt(l, w, p.admitted, p.evicted.records, j);
    ReadyIsDesired(l, p.asked, p.admitted.records, j);
    IdlingIsNot(l, w, p.admitted, p.evicted.records, j);
    hide Ready, Idling;
  }

  lemma ReadyIsDesired(l: Limits, s: State, ts: seq<Record>, i: nat)
    requires Whole(s, ts) && i < |ts|
    ensures Ready(l, s, ts, i) ==> Desire(s.records[i]) != 0 && s.records[i].residency == Available
  {}

  lemma IdlingIsNot(l: Limits, w: World, s: State, ts: seq<Record>, i: nat)
    requires Whole(s, ts) && i < |ts|
    ensures Idling(l, w, s, ts, i) ==> Desire(s.records[i]) == 0 && s.records[i].residency == Resident
  {}

  lemma JoinedReads(l: Limits, w: World, s: State, p: Phases, t: State, cost: nat -> nat, i: nat)
    requires Outcomes(l, w, s, p, t) && i <= |s.records|
    ensures Sum(0, i, Turned(p.asked.records, p.admitted.records, Resident, cost))
            == Sum(0, i, Turned(s.records, t.records, Resident, cost))
  {
    var f, g := Turned(p.asked.records, p.admitted.records, Resident, cost),
      Turned(s.records, t.records, Resident, cost);
    forall j: nat | j < i ensures f(j) == g(j) {
      Reading(l, w, s, p, t, j);
    }
    SumSame(0, i, f, g);
  }

  lemma ReleasedReads(l: Limits, w: World, s: State, p: Phases, t: State, cost: nat -> nat, i: nat)
    requires Outcomes(l, w, s, p, t) && i <= |s.records|
    ensures Sum(i, |s.records|, Released(p.admitted.records, p.evicted.records, w.rootLost, cost))
            == Sum(i, |s.records|, Released(s.records, t.records, w.rootLost, cost))
  {
    var f := Released(p.admitted.records, p.evicted.records, w.rootLost, cost);
    var g := Released(s.records, t.records, w.rootLost, cost);
    forall j: nat | i <= j < |s.records| ensures f(j) == g(j) {
      Reading(l, w, s, p, t, j);
    }
    SumSame(i, |s.records|, f, g);
  }

  /** The tick's admission budgets are not used up by the units before `i`, and its dependencies are in at its turn. */
  ghost predicate MayEnter(l: Limits, s: State, t: State, i: nat)
    requires Whole(s, t.records) && i < |s.records|
  {
    var rs, ts, m := s.records, t.records, s.manifest.value;
    && (forall v :: v in m.graph[i] ==> v < |rs| && (if v < i then ts[v] else rs[v]).residency == Resident)
    && Sum(0, i, Turned(rs, ts, Resident, One())) < l.admissionUnits
    && Sum(0, i, Turned(rs, ts, Resident, ObjectsOf(m.units))) + m.units[i].objectCount <= l.admissionObjects
    && Sum(0, i, Turned(rs, ts, Resident, BytesOf(m.units))) + m.units[i].compressedBytes <= l.admissionBytes
  }

  lemma BudgetsRead(l: Limits, w: World, s: State, p: Phases, t: State, i: nat)
    requires Outcomes(l, w, s, p, t) && i < |s.records|
    requires s.records[i].residency == Available && Desire(s.records[i]) != 0 && !s.records[i].root
    ensures MayEnter(l, s, t, i) ==> Ready(l, p.asked, p.admitted.records, i)
    ensures Ready(l, p.asked, p.admitted.records, i) && p.admitted.records[i].residency == Resident ==>
              MayEnter(l, s, t, i)
  {
    var m := s.manifest.value;
    JoinedReads(l, w, s, p, t, One(), i);
    JoinedReads(l, w, s, p, t, ObjectsOf(m.units), i);
    JoinedReads(l, w, s, p, t, BytesOf(m.units), i);
    forall v | v in m.graph[i] && v < |s.records|
      ensures t.records[v].residency == Resident ==> p.admitted.records[v].residency == Resident
      ensures p.asked.records[v].residency == Resident <==> s.records[v].residency == Resident {
      Reading(l, w, s, p, t, v);
    }
    if Ready(l, p.asked, p.admitted.records, i) && p.admitted.records[i].residency == Resident {
      forall v | v in m.graph[i] && v < i ensures t.records[v].residency == Resident {
        DependencyStays(l, w, s, p, t, i, v);
      }
    }
  }

  /** What a newly Resident unit stands on is not evicted in the same tick. */
  lemma DependencyStays(l: Limits, w: World, s: State, p: Phases, t: State, i: nat, v: nat)
    requires Outcomes(l, w, s, p, t) && i < |s.records| && v < i && v in s.manifest.value.graph[i]
    requires Desire(s.records[i]) != 0 && p.admitted.records[i].residency == p.admitted.records[v].residency == Resident
    ensures t.records[v].residency == Resident
  {
    hide Launchable, Ready;
    Reading(l, w, s, p, t, v);
    Reading(l, w, s, p, t, i);
    assert EvictedAt(l, w, p.admitted, p.evicted.records, i) && EvictedAt(l, w, p.admitted, p.evicted.records, v);
  }

  /** A desired unit with its document ready becomes Resident in a tick exactly when the world takes it, its
      dependencies are in at its turn, and the units, objects and bytes of the tick are not used up by then. */
  lemma TickAdmits(l: Limits, full: bool, w: World, s: State, p: Phases, t: State, i: nat)
    requires Inv(l, s) && s.manifest.Some? && Ticked(l, full, w, s, p, t) && i < |s.records|
    requires s.records[i].residency == Available && Desire(s.records[i]) != 0 && s.records[i].prepared
    ensures Whole(s, t.records)
    ensures t.records[i].residency == Resident <==> w.admission(i) == Committed && MayEnter(l, s, t, i)
  {
    RecordAt(l, s, i);
    hide Inv, Ticked, Requests, Ready, MayEnter, Launchable;
    TickHasOutcomes(l, full, w, s, p, t);
    BudgetsRead(l, w, s, p, t, i);
    Reading(l, w, s, p, t, i);
    assert AdmittedAt(l, w, p.asked, p.admitted.records, i);
    assert p.asked.records[i] == s.records[i];
  }

  /** The tick's eviction budgets are not used up by the units after `i`, and nothing Resident stands on it at its
      turn. */
  ghost predicate MayLeave(l: Limits, w: World, s: State, t: State, i: nat)
    requires Whole(s, t.records) && i < |s.records|
  {
    var rs, ts, m, n := s.records, t.records, s.manifest.value, |s.records|;
    && (forall d: nat :: d < n && i in m.graph[d] ==>
          ts[d].residency != Resident && (d > i || rs[d].residency != Resident))
    && Sum(i + 1, n, Released(rs, ts, w.rootLost, One())) < l.evictionUnits
    && Sum(i + 1, n, Released(rs, ts, w.rootLost, ObjectsOf(m.units))) + m.units[i].objectCount <= l.evictionObjects
  }

  /** Nothing Resident stands on `i` when it is its turn to be evicted. */
  ghost predicate Free(g: Graph, before: seq<Record>, after: seq<Record>, i: nat)
    requires |before| == |after| == |g|
  {
    forall d: nat :: d < |g| && i in g[d] ==> (if d > i then after[d] else before[d]).residency != Resident
  }

  ghost predicate FreeThroughout(g: Graph, before: seq<Record>, after: seq<Record>, i: nat)
    requires |before| == |after| == |g|
  {
    forall d: nat :: d < |g| && i in g[d] ==>
      after[d].residency != Resident && (d > i || before[d].residency != Resident)
  }

  lemma FreeReads(g: Graph, rs: seq<Record>, ms: seq<Record>, es: seq<Record>, ts: seq<Record>, i: nat)
    requires |rs| == |ms| == |es| == |ts| == |g| && i < |g| && i !in g[i]
    requires forall d: nat :: d < |g| ==>
               && (ms[d].residency == Resident <==> rs[d].residency == Resident || ts[d].residency == Resident)
               && (es[d].residency == Resident <==> ts[d].residency == Resident)
    ensures Free(g, ms, es, i) <==> FreeThroughout(g, rs, ts, i)
  {}

  lemma ReliefReads(l: Limits, w: World, s: State, p: Phases, t: State, i: nat)
    requires Outcomes(l, w, s, p, t) && i < |s.records| && i !in s.manifest.value.graph[i]
    requires s.records[i].residency == Resident && Desire(s.records[i]) == 0
    ensures Idling(l, w, p.admitted, p.evicted.records, i) <==> MayLeave(l, w, s, t, i)
  {
    var m, n := s.manifest.value, |s.records|;
    OutcomesWhole(l, w, s, p, t);
    ReleasedReads(l, w, s, p, t, One(), i + 1);
    ReleasedReads(l, w, s, p, t, ObjectsOf(m.units), i + 1);
    forall d: nat | d < n
      ensures (p.evicted.records[d].residency == Resident <==> t.records[d].residency == Resident)
              && (p.admitted.records[d].residency == Resident <==>
                  s.records[d].residency == Resident || t.records[d].residency == Resident)
              && Desire(p.admitted.records[d]) == Desire(s.records[d]) {
      Reading(l, w, s, p, t, d);
    }
    hide Outcomes, Sum, Released;
    FreeReads(m.graph, s.records, p.admitted.records, p.evicted.records, t.records, i);
    assert Idling(l, w, p.admitted, p.evicted.records, i) <==>
           && Free(m.graph, p.admitted.records, p.evicted.records, i)
           && Sum(i + 1, n, Released(p.admitted.records, p.evicted.records, w.rootLost, One())) < l.evictionUnits
           && Sum(i + 1, n, Released(p.admitted.records, p.evicted.records, w.rootLost, ObjectsOf(m.units)))
              + m.units[i].objectCount <= l.evictionObjects;
    hide Free;
  }

  lemma OutcomesWhole(l: Limits, w: World, s: State, p: Phases, t: State)
    requires Outcomes(l, w, s, p, t)
    ensures Whole(s, t.records) && Whole(p.admitted, p.evicted.records) && p.admitted.manifest == s.manifest
    ensures |p.admitted.records| == |s.records| == |p.evicted.records|
  {}

  /** An undesired Resident unit leaves the world in a tick exactly when its root was lost or no child of the running
      world holds it, nothing Resident stands on it at its turn, and the tick's budgets are not used up by then. */
  lemma TickEvicts(l: Limits, full: bool, w: World, s: State, p: Phases, t: State, i: nat)
    requires Inv(l, s) && s.manifest.Some? && Ticked(l, full, w, s, p, t) && i < |s.records|
    requires s.records[i].residency == Resident && Desire(s.records[i]) == 0
    ensures Whole(s, t.records)
    ensures t.records[i].residency == if (w.rootLost(i) || !w.runtimeChild(i)) && MayLeave(l, w, s, t, i)
                                      then Unavailable else Resident
  {
    NoSelfDependency(l, s, i);
    hide Inv, Ticked, MayLeave, Idling, Launchable, Ready;
    TickHasOutcomes(l, full, w, s, p, t);
    ReliefReads(l, w, s, p, t, i);
    Reading(l, w, s, p, t, i);
    assert EvictedAt(l, w, p.admitted, p.evicted.records, i) && AskedFor(l, p.evicted, t.records, i);
  }
}
