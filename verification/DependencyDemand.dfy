/** Reference-counted demand over the dependency graph of a content manifest. */
module DependencyDemand {
  import opened DependencyGraph
  import opened Options

  const MAX_COUNT: nat := 0xFFFF_FFFF

  datatype Residency =
    | Unavailable | Requested | Acquiring | Available | Admitting | Resident | Evicting | Failed

  /** One unit: its residency, its three demand counters, and which payload forms it holds.
      `cancelFlag` is the shared flag of the unit's running job, `root` its admitted subtree. */
  datatype Record = Record(
    residency: Residency,
    directDemand: nat,
    dependencyDemand: nat,
    pins: nat,
    cancelFlag: Option<bool>,
    cached: bool,
    prepared: bool,
    encodedBytes: nat,
    root: bool
  )

  function Desire(r: Record): nat {
    r.directDemand + r.dependencyDemand + r.pins
  }

  /** The desired units that list `v` among their direct dependencies. */
  ghost function Listers(g: Graph, rs: seq<Record>, v: nat): set<nat>
    requires |rs| == |g|
  {
    set u | 0 <= u < |g| && v in g[u] && Desire(rs[u]) != 0
  }

  /** Every dependency counter counts exactly the desired units that list it. */
  ghost predicate DemandExact(g: Graph, rs: seq<Record>) {
    && |rs| == |g|
    && forall v :: 0 <= v < |g| ==> rs[v].dependencyDemand == |Listers(g, rs, v)|
  }

  /** Mid-way through an increase: the worklist holds the increments still owed. */
  ghost predicate Rising(g: Graph, rs: seq<Record>, owed: seq<nat>) {
    && |rs| == |g|
    && (forall v :: v in owed ==> v < |g|)
    && forall v :: 0 <= v < |g| ==> rs[v].dependencyDemand + multiset(owed)[v] == |Listers(g, rs, v)|
  }

  /** Mid-way through a decrease: the worklist holds the decrements still owed. */
  ghost predicate Falling(g: Graph, rs: seq<Record>, owed: seq<nat>) {
    && |rs| == |g|
    && (forall v :: v in owed ==> v < |g|)
    && forall v :: 0 <= v < |g| ==> rs[v].dependencyDemand == |Listers(g, rs, v)| + multiset(owed)[v]
  }

  lemma {:induction false} DistinctOnce(s: seq<nat>, w: nat)
    requires Distinct(s)
    ensures multiset(s)[w] == if w in s then 1 else 0
  {
    if s != [] {
      assert s == [s[0]] + s[1..];
      DistinctOnce(s[1..], w);
    }
  }

  /** Turning `i` on adds it to the listers of exactly its dependencies. */
  lemma ListersOn(g: Graph, rs: seq<Record>, i: nat, r: Record, w: nat)
    requires WellFormed(g) && |rs| == |g| && i < |g| && Desire(rs[i]) == 0 && Desire(r) != 0
    ensures |Listers(g, rs[i := r], w)| == |Listers(g, rs, w)| + multiset(g[i])[w]
  {
    DistinctOnce(g[i], w);
    var before, after := Listers(g, rs, w), Listers(g, rs[i := r], w);
    assert i !in before;
    if w in g[i] {
      assert after == before + {i};
    } else {
      assert after == before;
    }
  }

  lemma ListersSame(g: Graph, rs: seq<Record>, i: nat, r: Record, w: nat)
    requires |rs| == |g| && i < |g| && (Desire(rs[i]) == 0 <==> Desire(r) == 0)
    ensures Listers(g, rs[i := r], w) == Listers(g, rs, w)
  {}

  lemma TurnOn(g: Graph, rs: seq<Record>, i: nat, r: Record)
    requires WellFormed(g) && DemandExact(g, rs) && i < |g|
    requires Desire(rs[i]) == 0 && Desire(r) != 0 && r.dependencyDemand == rs[i].dependencyDemand
    ensures Rising(g, rs[i := r], g[i])
  {
    var ts := rs[i := r];
    forall w | 0 <= w < |g| ensures ts[w].dependencyDemand + multiset(g[i])[w] == |Listers(g, ts, w)| {
      ListersOn(g, rs, i, r, w);
    }
  }

  lemma TurnOff(g: Graph, rs: seq<Record>, i: nat, r: Record)
    requires WellFormed(g) && DemandExact(g, rs) && i < |g|
    requires Desire(rs[i]) != 0 && Desire(r) == 0 && r.dependencyDemand == rs[i].dependencyDemand
    ensures Falling(g, rs[i := r], g[i])
  {
    var ts := rs[i := r];
    assert ts[i := rs[i]] == rs;
    forall w: nat | w < |g| ensures ts[w].dependencyDemand == |Listers(g, ts, w)| + multiset(g[i])[w] {
      ListersOn(g, ts, i, rs[i], w);
    }
  }

  lemma StayOn(g: Graph, rs: seq<Record>, i: nat, r: Record)
    requires DemandExact(g, rs) && i < |g| && r.dependencyDemand == rs[i].dependencyDemand
    requires Desire(rs[i]) == 0 <==> Desire(r) == 0
    ensures DemandExact(g, rs[i := r])
  {
    var ts := rs[i := r];
    forall w | 0 <= w < |g| ensures ts[w].dependencyDemand == |Listers(g, ts, w)| {
      ListersSame(g, rs, i, r, w);
    }
  }

  lemma ListersBounded(g: Graph, rs: seq<Record>, v: nat)
    requires |rs| == |g|
    ensures |Listers(g, rs, v)| <= |g|
  {
    SubsetSize(Listers(g, rs, v), UpTo(|g|));
  }

  function Raised(r: Record): Record {
    r.(dependencyDemand := r.dependencyDemand + 1)
  }

  function Lowered(r: Record): Record
    requires r.dependencyDemand > 0
  {
    r.(dependencyDemand := r.dependencyDemand - 1)
  }

  /** Paying one owed increment, passing the debt on when it makes `v` desired. */
  lemma RaiseOne(g: Graph, rs: seq<Record>, owed: seq<nat>, v: nat)
    requires WellFormed(g) && Rising(g, rs, owed + [v])
    ensures v < |g| && rs[v].dependencyDemand < |g|
    ensures Rising(g, rs[v := Raised(rs[v])], if Desire(rs[v]) != 0 then owed else owed + g[v])
  {
    var all := owed + [v];
    assert all[|owed|] == v && v in all;
    assert multiset(all) == multiset(owed) + multiset{v};
    ListersBounded(g, rs, v);
    var r := Raised(rs[v]);
    var left: seq<nat> := if Desire(rs[v]) != 0 then owed else owed + g[v];
    assert forall w :: w in owed ==> w in all;
    var ts := rs[v := r];
    forall w: nat | w < |g| ensures ts[w].dependencyDemand + multiset(left)[w] == |Listers(g, ts, w)| {
      assert rs[w].dependencyDemand + multiset(all)[w] == |Listers(g, rs, w)|;
      if Desire(rs[v]) != 0 {
        ListersSame(g, rs, v, r, w);
      } else {
        ListersOn(g, rs, v, r, w);
        assert multiset(left) == multiset(owed) + multiset(g[v]);
      }
    }
  }

  /** Paying one owed decrement, passing the debt on when it leaves `v` undesired. */
  lemma LowerOne(g: Graph, rs: seq<Record>, owed: seq<nat>, v: nat)
    requires WellFormed(g) && Falling(g, rs, owed + [v])
    ensures v < |g| && rs[v].dependencyDemand > 0
    ensures Falling(g, rs[v := Lowered(rs[v])], if Desire(Lowered(rs[v])) != 0 then owed else owed + g[v])
  {
    var all := owed + [v];
    assert all[|owed|] == v && v in all;
    assert multiset(all) == multiset(owed) + multiset{v};
    assert rs[v].dependencyDemand == |Listers(g, rs, v)| + multiset(all)[v];
    var r := Lowered(rs[v]);
    var ts := rs[v := r];
    var left: seq<nat> := if Desire(r) != 0 then owed else owed + g[v];
    assert forall w :: w in owed ==> w in all;
    forall w: nat | w < |g| ensures ts[w].dependencyDemand == |Listers(g, ts, w)| + multiset(left)[w] {
      assert rs[w].dependencyDemand == |Listers(g, rs, w)| + multiset(all)[w];
      if Desire(r) != 0 {
        ListersSame(g, rs, v, r, w);
      } else {
        assert ts[v := rs[v]] == rs;
        ListersOn(g, ts, v, rs[v], w);
        assert multiset(left) == multiset(owed) + multiset(g[v]);
      }
    }
  }

  // ---- What exact demand means: reachability from the units someone asked for.

  function Asked(r: Record): nat {
    r.directDemand + r.pins
  }

  /** Some requested or pinned unit reaches `v` along dependency edges. */
  ghost predicate Wanted(g: Graph, rs: seq<Record>, v: nat)
    requires |rs| == |g|
  {
    exists p :: Walk(g, p) && p[|p| - 1] == v && Asked(rs[p[0]]) != 0
  }

  lemma {:induction false} WantedIsDesired(g: Graph, rs: seq<Record>, p: seq<nat>)
    requires WellFormed(g) && DemandExact(g, rs) && Walk(g, p) && Asked(rs[p[0]]) != 0
    ensures p[|p| - 1] < |g| && Desire(rs[p[|p| - 1]]) != 0
  {
    if |p| > 1 {
      var u := p[|p| - 2];
      WalkSlice(g, p, 0, |p| - 1);
      assert p[0..|p| - 1][|p| - 2] == u;
      WantedIsDesired(g, rs, p[0..|p| - 1]);
      assert Edge(g, p, |p| - 2);
      assert u in Listers(g, rs, p[|p| - 1]);
    }
  }

  lemma {:induction false} DesiredIsWanted(g: Graph, rs: seq<Record>, rank: seq<nat>, v: nat)
    requires WellFormed(g) && DemandExact(g, rs) && Ranked(g, rank)
    requires v < |g| && Desire(rs[v]) != 0
    ensures Wanted(g, rs, v)
    decreases |g| - rank[v]
  {
    if Asked(rs[v]) != 0 {
      assert Walk(g, [v]);
    } else {
      assert |Listers(g, rs, v)| != 0;
      var u :| u in Listers(g, rs, v);
      DesiredIsWanted(g, rs, rank, u);
      var p :| Walk(g, p) && p[|p| - 1] == u && Asked(rs[p[0]]) != 0;
      WalkExtend(g, p, v);
      assert (p + [v])[0] == p[0];
    }
  }

  /** A unit is desired exactly when a requested or pinned unit reaches it. */
  lemma DesiredIffWanted(g: Graph, rs: seq<Record>, v: nat)
    requires WellFormed(g) && Acyclic(g) && DemandExact(g, rs) && v < |g|
    ensures Desire(rs[v]) != 0 <==> Wanted(g, rs, v)
  {
    var rank := AcyclicHasRank(g);
    if Desire(rs[v]) != 0 {
      DesiredIsWanted(g, rs, rank, v);
    }
    if Wanted(g, rs, v) {
      var p :| Walk(g, p) && p[|p| - 1] == v && Asked(rs[p[0]]) != 0;
      WantedIsDesired(g, rs, p);
    }
  }

  ghost predicate SameAsked(rs: seq<Record>, ts: seq<Record>) {
    && |rs| == |ts|
    && forall i :: 0 <= i < |rs| ==> rs[i].directDemand == ts[i].directDemand && rs[i].pins == ts[i].pins
  }

  /** Demand has no memory: direct demand and pins determine every dependency counter. */
  lemma DemandDetermined(g: Graph, rs: seq<Record>, ts: seq<Record>)
    requires WellFormed(g) && Acyclic(g) && DemandExact(g, rs) && DemandExact(g, ts) && SameAsked(rs, ts)
    ensures forall v :: 0 <= v < |g| ==> rs[v].dependencyDemand == ts[v].dependencyDemand
  {
    forall u | 0 <= u < |g| ensures Desire(rs[u]) != 0 <==> Desire(ts[u]) != 0 {
      DesiredIffWanted(g, rs, u);
      DesiredIffWanted(g, ts, u);
      WantedSame(g, rs, ts, u);
    }
    forall v | 0 <= v < |g| ensures rs[v].dependencyDemand == ts[v].dependencyDemand {
      assert Listers(g, rs, v) == Listers(g, ts, v);
    }
  }

  lemma WantedSame(g: Graph, rs: seq<Record>, ts: seq<Record>, v: nat)
    requires |rs| == |g| && SameAsked(rs, ts)
    ensures Wanted(g, rs, v) <==> Wanted(g, ts, v)
  {
    forall p | Walk(g, p) ensures Asked(rs[p[0]]) == Asked(ts[p[0]]) {}
  }

  /** Releasing everything returns every counter to zero. */
  lemma NothingAskedNothingDesired(g: Graph, rs: seq<Record>)
    requires WellFormed(g) && Acyclic(g) && DemandExact(g, rs)
    requires forall i :: 0 <= i < |rs| ==> Asked(rs[i]) == 0
    ensures forall i :: 0 <= i < |rs| ==> Desire(rs[i]) == 0
  {
    forall i | 0 <= i < |rs| ensures Desire(rs[i]) == 0 {
      DesiredIffWanted(g, rs, i);
    }
  }
}
