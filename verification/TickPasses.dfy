/** What the passes of one tick make of every unit: requests, admission and eviction, each within its budgets. */
module TickPasses {
  import opened DependencyGraph
  import opened Options
  import opened DependencyDemand
  import opened ResidencyState
  import opened Settlement
  import opened Totals

  datatype AdmissionOutcome = DecodeRejected | CommitRejected | Committed

  /** What the engine around the service answers during one Step, unit by unit. */
  datatype World = World(
    admission: nat -> AdmissionOutcome,
    decodedRoom: nat -> bool,
    rootLost: nat -> bool,
    runtimeChild: nat -> bool
  )

  // ---- Sums over a range of units

  function Sum(a: nat, b: nat, cost: nat -> nat): nat {
    if a >= b then 0 else Sum(a, b - 1, cost) + cost(b - 1)
  }

  lemma {:induction false} SumSame(a: nat, b: nat, cost: nat -> nat, other: nat -> nat)
    requires forall j: nat :: a <= j < b ==> cost(j) == other(j)
    ensures Sum(a, b, cost) == Sum(a, b, other)
  {
    if a < b {
      SumSame(a, b - 1, cost, other);
    }
  }

  lemma {:induction false} SumFirst(a: nat, b: nat, cost: nat -> nat)
    requires a < b
    ensures Sum(a, b, cost) == cost(a) + Sum(a + 1, b, cost)
  {
    if a + 1 < b {
      SumFirst(a, b - 1, cost);
    }
  }

  lemma {:induction false} SumJoin(a: nat, b: nat, c: nat, cost: nat -> nat)
    requires a <= b <= c
    ensures Sum(a, c, cost) == Sum(a, b, cost) + Sum(b, c, cost)
  {
    if b < c {
      SumJoin(a, b, c - 1, cost);
    }
  }

  function One(): nat -> nat { (j: nat) => 1 }

  function ObjectsOf(units: seq<Unit>): nat -> nat { (j: nat) => if j < |units| then units[j].objectCount else 0 }

  function BytesOf(units: seq<Unit>): nat -> nat { (j: nat) => if j < |units| then units[j].compressedBytes else 0 }

  /** The cost of unit `j` if `now` holds of it after a pass and did not before. */
  function Turned(rs: seq<Record>, ts: seq<Record>, now: Residency, cost: nat -> nat): nat -> nat {
    (j: nat) => if j < |rs| && j < |ts| && rs[j].residency != now && ts[j].residency == now then cost(j) else 0
  }

  /** The cost of unit `j` if a pass took it out of the world and its root was not lost already. */
  function Released(rs: seq<Record>, ts: seq<Record>, lost: nat -> bool, cost: nat -> nat): nat -> nat {
    (j: nat) => if j < |rs| && j < |ts| && rs[j].residency == Resident && ts[j].residency != Resident && !lost(j)
         then cost(j) else 0
  }

  function Waiting(rs: seq<Record>): nat -> nat {
    (j: nat) => if j < |rs| && rs[j].residency == Requested then 1 else 0
  }

  lemma {:induction false} WaitingTotal(rs: seq<Record>, n: nat)
    requires n <= |rs|
    ensures Sum(0, n, Waiting(rs)) == Total(rs[..n], IsRequested)
  {
    if n > 0 {
      WaitingTotal(rs, n - 1);
      assert rs[..n] == rs[..n - 1] + [rs[n - 1]];
      TotalAppend(rs[..n - 1], rs[n - 1], IsRequested);
    }
  }

  lemma {:induction false} TurnedSame(rs: seq<Record>, ts: seq<Record>, us: seq<Record>, now: Residency,
                                      cost: nat -> nat, n: nat)
    requires n <= |ts| == |us| && ts[..n] == us[..n]
    ensures Sum(0, n, Turned(rs, ts, now, cost)) == Sum(0, n, Turned(rs, us, now, cost))
  {
    forall j: nat | j < n ensures ts[j] == us[j] {
      assert ts[..n][j] == us[..n][j];
    }
    SumSame(0, n, Turned(rs, ts, now, cost), Turned(rs, us, now, cost));
  }

  /** Units that a pass has not reached cost nothing. */
  lemma {:induction false} TurnedNone(rs: seq<Record>, ts: seq<Record>, now: Residency, cost: nat -> nat, a: nat,
                                      b: nat)
    requires a <= b && |rs| == |ts| && forall j: nat :: a <= j < |rs| ==> ts[j] == rs[j]
    ensures Sum(0, b, Turned(rs, ts, now, cost)) == Sum(0, a, Turned(rs, ts, now, cost))
    decreases b
  {
    if a < b {
      TurnedNone(rs, ts, now, cost, a, b - 1);
    }
  }

  // ---- The states that a pass leads from and to

  ghost predicate Whole(s: State, ts: seq<Record>) {
    s.manifest.Some? && |s.records| == |ts| == |s.manifest.value.units| == |s.manifest.value.graph|
  }

  /** Nothing but records, jobs and their ledgers differs. */
  ghost predicate Aside(s: State, t: State) {
    && t.manifest == s.manifest && t.taken == s.taken && t.completions == s.completions
    && t.completionBytes == s.completionBytes && t.manifestInFlight == s.manifestInFlight && t.leaked == s.leaked
  }

  /** Every unit that became Acquiring holds one worker slot and its payload's bytes. */
  ghost predicate LaunchesCounted(s: State, t: State)
    requires Whole(s, t.records)
  {
    var n, units := |s.records|, s.manifest.value.units;
    && t.inFlight == s.inFlight + Sum(0, n, Turned(s.records, t.records, Acquiring, One()))
    && t.reserved == s.reserved + Sum(0, n, Turned(s.records, t.records, Acquiring, BytesOf(units)))
  }

  /** A worker slot and payload room are left when it is unit `i`'s turn. */
  ghost predicate Launchable(l: Limits, s: State, ts: seq<Record>, i: nat)
    requires Whole(s, ts) && i < |ts|
  {
    var units := s.manifest.value.units;
    && s.inFlight + Sum(0, i, Turned(s.records, ts, Acquiring, One())) < l.maxInFlight
    && s.reserved + Sum(0, i, Turned(s.records, ts, Acquiring, BytesOf(units))) + units[i].compressedBytes
       <= l.maxCompletedBytes
  }

  // ---- Requests, in record order

  /** The pending slots in use when it is unit `i`'s turn: units before it have had theirs. */
  ghost function PendingAt(s: State, ts: seq<Record>, i: nat): nat
    requires i <= |s.records|
  {
    s.leaked + Sum(0, i, Waiting(ts)) + Sum(i, |s.records|, Waiting(s.records))
  }

  /** What the request pass makes of unit `i`. */
  ghost predicate AskedFor(l: Limits, s: State, ts: seq<Record>, i: nat)
    requires Whole(s, ts) && i < |ts|
  {
    var r := s.records[i];
    if Desire(r) == 0 then
      ts[i] == match r.residency
               case Available => r.(residency := Unavailable, prepared := false)
               case Requested => r.(residency := Unavailable)
               case Acquiring => r.(cancelFlag := Some(true))
               case _ => r
    else if r.residency == Requested || (r.residency == Unavailable && PendingAt(s, ts, i) < l.maxPending) then
      ts[i] == if Launchable(l, s, ts, i) then r.(residency := Acquiring, cancelFlag := Some(false))
               else r.(residency := Requested)
    else ts[i] == r
  }

  /** The request pass: every unit in turn, then the ledgers. */
  ghost predicate Requests(l: Limits, s: State, t: State) {
    && Whole(s, t.records) && Aside(s, t) && LaunchesCounted(s, t) && t.cachedBytes == s.cachedBytes
    && forall i: nat :: i < |s.records| ==> AskedFor(l, s, t.records, i)
  }

  // ---- Admission, in record order

  /** A desired Available unit whose dependencies are in and which fits what is left of the budgets at its turn. */
  ghost predicate Ready(l: Limits, s: State, ts: seq<Record>, i: nat)
    requires Whole(s, ts) && i < |ts|
  {
    var rs, m := s.records, s.manifest.value;
    && rs[i].residency == Available && Desire(rs[i]) != 0
    && (forall v :: v in m.graph[i] ==> v < |rs| && (if v < i then ts[v] else rs[v]).residency == Resident)
    && Sum(0, i, Turned(rs, ts, Resident, One())) < l.admissionUnits
    && Sum(0, i, Turned(rs, ts, Resident, ObjectsOf(m.units))) + m.units[i].objectCount <= l.admissionObjects
    && Sum(0, i, Turned(rs, ts, Resident, BytesOf(m.units))) + m.units[i].compressedBytes <= l.admissionBytes
  }

  /** What the admission pass makes of unit `i`. */
  ghost predicate AdmittedAt(l: Limits, w: World, s: State, ts: seq<Record>, i: nat)
    requires Whole(s, ts) && i < |ts|
  {
    var r := s.records[i];
    ts[i] ==
    if !Ready(l, s, ts, i) then r
    else if r.prepared then
      if w.admission(i) == Committed then r.(residency := Resident, root := true, prepared := false)
      else r.(residency := Failed, cached := false, prepared := false, encodedBytes := 0)
    else if w.decodedRoom(i) && Launchable(l, s, ts, i) then r.(residency := Acquiring, cancelFlag := Some(false))
    else r
  }

  ghost predicate Admission(l: Limits, w: World, s: State, t: State) {
    && Whole(s, t.records) && Aside(s, t) && LaunchesCounted(s, t) && t.pending == s.pending
    && forall i: nat :: i < |s.records| ==> AdmittedAt(l, w, s, t.records, i)
  }

  // ---- Eviction, in reverse record order

  /** An undesired Resident unit without Resident dependents which fits what is left of the budgets at its turn. */
  ghost predicate Idling(l: Limits, w: World, s: State, ts: seq<Record>, i: nat)
    requires Whole(s, ts) && i < |ts|
  {
    var rs, m, n := s.records, s.manifest.value, |s.records|;
    && rs[i].residency == Resident && Desire(rs[i]) == 0
    && (forall d: nat :: d < n && i in m.graph[d] ==> (if d > i then ts[d] else rs[d]).residency != Resident)
    && Sum(i + 1, n, Released(rs, ts, w.rootLost, One())) < l.evictionUnits
    && Sum(i + 1, n, Released(rs, ts, w.rootLost, ObjectsOf(m.units))) + m.units[i].objectCount <= l.evictionObjects
  }

  /** What the eviction pass makes of unit `i`; a unit with children of the running world stays. */
  ghost predicate EvictedAt(l: Limits, w: World, s: State, ts: seq<Record>, i: nat)
    requires Whole(s, ts) && i < |ts|
  {
    var r := s.records[i];
    ts[i] == if Idling(l, w, s, ts, i) && (w.rootLost(i) || !w.runtimeChild(i))
             then r.(residency := Unavailable, root := false) else r
  }

  ghost predicate Eviction(l: Limits, w: World, s: State, t: State) {
    && Whole(s, t.records) && t == s.(records := t.records)
    && forall i: nat :: i < |s.records| ==> EvictedAt(l, w, s, t.records, i)
  }

  // ---- A whole tick

  /** The states of a tick: while its reports are settled, then after requests, admission and eviction. */
  datatype Phases = Phases(settling: seq<State>, asked: State, admitted: State, evicted: State)

  /** The oldest reports are taken and settled, units are asked for, and once there is a manifest units are admitted and
      evicted and asked for again; each phase leads from the one before. */
  ghost predicate Ticked(l: Limits, full: bool, w: World, s: State, p: Phases, t: State) {
    && AllSettled(l, full, p.settling) && TakenFrom(l, s, p.settling[0])
    && |p.settling| == |p.settling[0].taken| + 1
    && var settled := p.settling[|p.settling| - 1];
       if settled.manifest.None? then t == p.asked == settled
       else
         && Requests(l, settled, p.asked) && Admission(l, w, p.asked, p.admitted)
         && Eviction(l, w, p.admitted, p.evicted) && Requests(l, p.evicted, t)
  }

  // ---- How far a pass has come

  /** At most record `n` differs. */
  ghost predicate OnlyAt(ts: seq<Record>, us: seq<Record>, n: nat) {
    |us| == |ts| && n < |ts| && us == ts[n := us[n]]
  }

  /** The records from `n` on are as before. */
  ghost predicate Untouched(rs: seq<Record>, ts: seq<Record>, n: nat) {
    |rs| == |ts| && forall j: nat :: n <= j < |rs| ==> ts[j] == rs[j]
  }

  ghost predicate Launches(s: State, t: State, n: nat)
    requires Whole(s, t.records)
  {
    var units := s.manifest.value.units;
    && t.inFlight == s.inFlight + Sum(0, n, Turned(s.records, t.records, Acquiring, One()))
    && t.reserved == s.reserved + Sum(0, n, Turned(s.records, t.records, Acquiring, BytesOf(units)))
  }

  /** Unit `n` had its turn, and only its record differs. */
  ghost predicate OneTurn(s: State, t: State, u: State, n: nat) {
    && Whole(s, t.records) && Whole(s, u.records) && n < |s.records| && Aside(s, t) && Aside(t, u)
    && OnlyAt(t.records, u.records, n) && Untouched(s.records, t.records, n)
  }

  ghost predicate LaunchesOne(t: State, u: State, n: nat)
    requires t.manifest.Some? && n < |t.records| == |u.records| == |t.manifest.value.units|
  {
    var launched := t.records[n].residency != Acquiring && u.records[n].residency == Acquiring;
    && u.inFlight == t.inFlight + (if launched then 1 else 0)
    && u.reserved == t.reserved + if launched then t.manifest.value.units[n].compressedBytes else 0
  }

  lemma OneMore(rs: seq<Record>, ts: seq<Record>, us: seq<Record>, now: Residency, cost: nat -> nat, n: nat)
    requires n < |rs| == |ts| && OnlyAt(ts, us, n)
    ensures Sum(0, n, Turned(rs, us, now, cost)) == Sum(0, n, Turned(rs, ts, now, cost))
    ensures Sum(0, n + 1, Turned(rs, us, now, cost))
            == Sum(0, n, Turned(rs, ts, now, cost))
               + if rs[n].residency != now && us[n].residency == now then cost(n) else 0
  {
    TurnedSame(rs, ts, us, now, cost, n);
  }

  lemma LaunchesNext(s: State, t: State, u: State, n: nat)
    requires OneTurn(s, t, u, n) && Launches(s, t, n) && LaunchesOne(t, u, n)
    ensures Launches(s, u, n + 1) && Untouched(s.records, u.records, n + 1)
  {
    OneMore(s.records, t.records, u.records, Acquiring, One(), n);
    OneMore(s.records, t.records, u.records, Acquiring, BytesOf(s.manifest.value.units), n);
  }

  lemma LaunchableNow(l: Limits, s: State, t: State, u: State, n: nat)
    requires OneTurn(s, t, u, n) && Launches(s, t, n)
    ensures Launchable(l, s, u.records, n) <==>
            && t.inFlight < l.maxInFlight
            && t.reserved + s.manifest.value.units[n].compressedBytes <= l.maxCompletedBytes
  {
    OneMore(s.records, t.records, u.records, Acquiring, One(), n);
    OneMore(s.records, t.records, u.records, Acquiring, BytesOf(s.manifest.value.units), n);
  }

  lemma LaunchableStill(l: Limits, s: State, ts: seq<Record>, us: seq<Record>, i: nat, n: nat)
    requires Whole(s, ts) && i < n < |ts| && OnlyAt(ts, us, n)
    ensures Launchable(l, s, us, i) <==> Launchable(l, s, ts, i)
  {
    TurnedSame(s.records, ts, us, Acquiring, One(), i);
    TurnedSame(s.records, ts, us, Acquiring, BytesOf(s.manifest.value.units), i);
  }

  lemma LaunchesEnd(s: State, t: State, n: nat)
    requires Whole(s, t.records) && n <= |s.records| && Launches(s, t, n) && Untouched(s.records, t.records, n)
    ensures LaunchesCounted(s, t)
  {
    TurnedNone(s.records, t.records, Acquiring, One(), n, |s.records|);
    TurnedNone(s.records, t.records, Acquiring, BytesOf(s.manifest.value.units), n, |s.records|);
  }

  // Admission.

  datatype Budget = Budget(units: nat, objects: nat, bytes: nat)

  ghost predicate Spent(s: State, ts: seq<Record>, n: nat, b: Budget)
    requires Whole(s, ts)
  {
    var rs, units := s.records, s.manifest.value.units;
    && b.units == Sum(0, n, Turned(rs, ts, Resident, One()))
    && b.objects == Sum(0, n, Turned(rs, ts, Resident, ObjectsOf(units)))
    && b.bytes == Sum(0, n, Turned(rs, ts, Resident, BytesOf(units)))
  }

  /** The first `n` units have had their turns. */
  ghost predicate AdmittedTo(l: Limits, w: World, s: State, t: State, n: nat, b: Budget) {
    && Whole(s, t.records) && Aside(s, t) && t.pending == s.pending && n <= |s.records|
    && Launches(s, t, n) && Untouched(s.records, t.records, n) && Spent(s, t.records, n, b)
    && forall i: nat :: i < n ==> AdmittedAt(l, w, s, t.records, i)
  }

  /** The guard of one turn, seen from the state and the budgets at that turn. */
  ghost predicate Admittable(l: Limits, t: State, n: nat, b: Budget)
    requires Whole(t, t.records) && n < |t.records|
  {
    var unit := t.manifest.value.units[n];
    && t.records[n].residency == Available && Desire(t.records[n]) != 0
    && DependenciesResident(t.manifest.value.graph, t.records, n)
    && b.objects + unit.objectCount <= l.admissionObjects && b.bytes + unit.compressedBytes <= l.admissionBytes
  }

  /** What one turn leads to. */
  ghost predicate AdmitTurn(l: Limits, w: World, t: State, n: nat, b: Budget, r: Record)
    requires Whole(t, t.records) && n < |t.records|
  {
    var was := t.records[n];
    r ==
    if !Admittable(l, t, n, b) then was
    else if was.prepared then
      if w.admission(n) == Committed then was.(residency := Resident, root := true, prepared := false)
      else was.(residency := Failed, cached := false, prepared := false, encodedBytes := 0)
    else if w.decodedRoom(n) && t.inFlight < l.maxInFlight
            && t.reserved + t.manifest.value.units[n].compressedBytes <= l.maxCompletedBytes
      then was.(residency := Acquiring, cancelFlag := Some(false))
    else was
  }

  lemma ReadyNow(l: Limits, s: State, t: State, u: State, n: nat, b: Budget)
    requires OneTurn(s, t, u, n) && Spent(s, t.records, n, b) && b.units < l.admissionUnits
    ensures Ready(l, s, u.records, n) <==> Admittable(l, t, n, b)
  {
    var rs, units := s.records, s.manifest.value.units;
    OneMore(rs, t.records, u.records, Resident, One(), n);
    OneMore(rs, t.records, u.records, Resident, ObjectsOf(units), n);
    OneMore(rs, t.records, u.records, Resident, BytesOf(units), n);
  }

  lemma ReadyStill(l: Limits, s: State, ts: seq<Record>, us: seq<Record>, i: nat, n: nat)
    requires Whole(s, ts) && i < n < |ts| && OnlyAt(ts, us, n)
    ensures Ready(l, s, us, i) <==> Ready(l, s, ts, i)
  {
    var rs, units := s.records, s.manifest.value.units;
    TurnedSame(rs, ts, us, Resident, One(), i);
    TurnedSame(rs, ts, us, Resident, ObjectsOf(units), i);
    TurnedSame(rs, ts, us, Resident, BytesOf(units), i);
  }

  lemma AdmittedStill(l: Limits, w: World, s: State, ts: seq<Record>, us: seq<Record>, i: nat, n: nat)
    requires Whole(s, ts) && i < n < |ts| && OnlyAt(ts, us, n) && AdmittedAt(l, w, s, ts, i)
    ensures AdmittedAt(l, w, s, us, i)
  {
    hide Ready, Launchable;
    ReadyStill(l, s, ts, us, i, n);
    LaunchableStill(l, s, ts, us, i, n);
  }

  function SpentNext(s: State, n: nat, b: Budget, admitted: bool): Budget
    requires s.manifest.Some? && n < |s.manifest.value.units|
  {
    var unit := s.manifest.value.units[n];
    if admitted then Budget(b.units + 1, b.objects + unit.objectCount, b.bytes + unit.compressedBytes) else b
  }

  lemma SpentMore(s: State, ts: seq<Record>, us: seq<Record>, n: nat, b: Budget)
    requires Whole(s, ts) && n < |ts| && OnlyAt(ts, us, n) && Spent(s, ts, n, b)
    ensures Spent(s, us, n + 1,
                  SpentNext(s, n, b, s.records[n].residency != Resident && us[n].residency == Resident))
  {
    var rs, units := s.records, s.manifest.value.units;
    OneMore(rs, ts, us, Resident, One(), n);
    OneMore(rs, ts, us, Resident, ObjectsOf(units), n);
    OneMore(rs, ts, us, Resident, BytesOf(units), n);
  }

  lemma AdmittedNow(l: Limits, w: World, s: State, t: State, u: State, n: nat, b: Budget)
    requires OneTurn(s, t, u, n) && Launches(s, t, n) && Spent(s, t.records, n, b) && b.units < l.admissionUnits
    requires AdmitTurn(l, w, t, n, b, u.records[n])
    ensures AdmittedAt(l, w, s, u.records, n)
  {
    hide Spent, Launches, Ready, Launchable, Admittable;
    ReadyNow(l, s, t, u, n, b);
    LaunchableNow(l, s, t, u, n);
  }

  lemma AdmittingNext(l: Limits, w: World, s: State, t: State, u: State, n: nat, b: Budget)
    requires AdmittedTo(l, w, s, t, n, b) && n < |s.records| && b.units < l.admissionUnits
    requires OnlyAt(t.records, u.records, n) && Aside(t, u) && u.pending == t.pending
    requires LaunchesOne(t, u, n) && AdmitTurn(l, w, t, n, b, u.records[n])
    ensures AdmittedTo(l, w, s, u, n + 1,
                      SpentNext(s, n, b, s.records[n].residency != Resident && u.records[n].residency == Resident))
  {
    assert OneTurn(s, t, u, n);
    AdmittedNow(l, w, s, t, u, n, b);
    LaunchesNext(s, t, u, n);
    SpentMore(s, t.records, u.records, n, b);
    hide AdmitTurn, AdmittedAt, Spent, Launches, LaunchesOne, OneTurn;
    forall i: nat | i < n ensures AdmittedAt(l, w, s, u.records, i) {
      AdmittedStill(l, w, s, t.records, u.records, i, n);
    }
  }

  lemma AdmittingStarts(l: Limits, w: World, s: State)
    requires Whole(s, s.records)
    ensures AdmittedTo(l, w, s, s, 0, Budget(0, 0, 0))
  {}

  /** The pass is over when every unit has had its turn or the tick's units are used up. */
  lemma AdmittingEnds(l: Limits, w: World, s: State, t: State, n: nat, b: Budget)
    requires AdmittedTo(l, w, s, t, n, b) && (n == |s.records| || b.units >= l.admissionUnits)
    ensures Admission(l, w, s, t)
  {
    LaunchesEnd(s, t, n);
    forall i: nat | n <= i < |s.records| ensures AdmittedAt(l, w, s, t.records, i) {
      TurnedNone(s.records, t.records, Resident, One(), n, i);
    }
  }

  // Requests.

  ghost predicate RequestedTo(l: Limits, s: State, t: State, n: nat) {
    && Whole(s, t.records) && Aside(s, t) && t.cachedBytes == s.cachedBytes && n <= |s.records|
    && Launches(s, t, n) && Untouched(s.records, t.records, n) && t.pending == PendingAt(s, t.records, n)
    && forall i: nat :: i < n ==> AskedFor(l, s, t.records, i)
  }

  /** What one turn of the request pass leads to. */
  ghost predicate AskTurn(l: Limits, t: State, n: nat, r: Record)
    requires Whole(t, t.records) && n < |t.records|
  {
    var was := t.records[n];
    if Desire(was) == 0 then
      r == match was.residency
           case Available => was.(residency := Unavailable, prepared := false)
           case Requested => was.(residency := Unavailable)
           case Acquiring => was.(cancelFlag := Some(true))
           case _ => was
    else if was.residency == Requested || (was.residency == Unavailable && t.pending < l.maxPending) then
      r == if t.inFlight < l.maxInFlight
              && t.reserved + t.manifest.value.units[n].compressedBytes <= l.maxCompletedBytes
           then was.(residency := Acquiring, cancelFlag := Some(false)) else was.(residency := Requested)
    else r == was
  }

  lemma PendingStill(s: State, ts: seq<Record>, us: seq<Record>, i: nat, n: nat)
    requires i <= n < |ts| == |s.records| && OnlyAt(ts, us, n)
    ensures PendingAt(s, us, i) == PendingAt(s, ts, i)
  {
    SumSame(0, i, Waiting(ts), Waiting(us));
  }

  lemma PendingNext(s: State, ts: seq<Record>, us: seq<Record>, n: nat)
    requires n < |ts| == |s.records| && OnlyAt(ts, us, n)
    ensures PendingAt(s, us, n + 1) == PendingAt(s, ts, n) + IsRequested(us[n]) - IsRequested(s.records[n])
  {
    SumSame(0, n, Waiting(ts), Waiting(us));
    SumFirst(n, |s.records|, Waiting(s.records));
  }

  lemma AskedStill(l: Limits, s: State, ts: seq<Record>, us: seq<Record>, i: nat, n: nat)
    requires Whole(s, ts) && i < n < |ts| && OnlyAt(ts, us, n) && AskedFor(l, s, ts, i)
    ensures AskedFor(l, s, us, i)
  {
    hide Launchable, PendingAt;
    LaunchableStill(l, s, ts, us, i, n);
    PendingStill(s, ts, us, i, n);
  }

  lemma AskedNow(l: Limits, s: State, t: State, u: State, n: nat)
    requires OneTurn(s, t, u, n) && Launches(s, t, n) && t.pending == PendingAt(s, t.records, n)
    requires AskTurn(l, t, n, u.records[n])
    ensures AskedFor(l, s, u.records, n)
  {
    hide Launches, Launchable, PendingAt;
    LaunchableNow(l, s, t, u, n);
    PendingStill(s, t.records, u.records, n, n);
  }

  lemma RequestingNext(l: Limits, s: State, t: State, u: State, n: nat)
    requires RequestedTo(l, s, t, n) && n < |s.records|
    requires OnlyAt(t.records, u.records, n) && Aside(t, u) && u.cachedBytes == t.cachedBytes
    requires u.pending == t.pending + IsRequested(u.records[n]) - IsRequested(t.records[n])
    requires LaunchesOne(t, u, n) && AskTurn(l, t, n, u.records[n])
    ensures RequestedTo(l, s, u, n + 1)
  {
    assert OneTurn(s, t, u, n);
    AskedNow(l, s, t, u, n);
    LaunchesNext(s, t, u, n);
    PendingNext(s, t.records, u.records, n);
    hide AskTurn, AskedFor, Launches, LaunchesOne, OneTurn, PendingAt;
    forall i: nat | i < n ensures AskedFor(l, s, u.records, i) {
      AskedStill(l, s, t.records, u.records, i, n);
    }
  }

  // Eviction.

  ghost predicate Relieved(w: World, s: State, ts: seq<Record>, n: nat, units: nat, objects: nat)
    requires Whole(s, ts)
  {
    var rs := s.records;
    && units == Sum(n, |rs|, Released(rs, ts, w.rootLost, One()))
    && objects == Sum(n, |rs|, Released(rs, ts, w.rootLost, ObjectsOf(s.manifest.value.units)))
  }

  /** The units from `n` on have had their turns. */
  ghost predicate EvictedTo(l: Limits, w: World, s: State, t: State, n: nat, units: nat, objects: nat) {
    && Whole(s, t.records) && t == s.(records := t.records) && n <= |s.records|
    && Relieved(w, s, t.records, n, units, objects)
    && (forall i: nat :: i < n ==> t.records[i] == s.records[i])
    && forall i: nat :: n <= i < |s.records| ==> EvictedAt(l, w, s, t.records, i)
  }

  /** The guard of one turn, seen from the state and the budget at that turn. */
  ghost predicate Removable(l: Limits, t: State, n: nat, objects: nat)
    requires Whole(t, t.records) && n < |t.records|
  {
    var m := t.manifest.value;
    && t.records[n].residency == Resident && Desire(t.records[n]) == 0
    && (forall d: nat :: d < |t.records| && n in m.graph[d] ==> t.records[d].residency != Resident)
    && objects + m.units[n].objectCount <= l.evictionObjects
  }

  ghost predicate EvictTurn(l: Limits, w: World, t: State, n: nat, objects: nat, r: Record)
    requires Whole(t, t.records) && n < |t.records|
  {
    var was := t.records[n];
    r == if Removable(l, t, n, objects) && (w.rootLost(n) || !w.runtimeChild(n))
         then was.(residency := Unavailable, root := false) else was
  }

  lemma ReleasedSame(rs: seq<Record>, ts: seq<Record>, us: seq<Record>, lost: nat -> bool, cost: nat -> nat,
                     a: nat, n: nat)
    requires n < a && n < |ts| == |rs| && OnlyAt(ts, us, n)
    ensures Sum(a, |rs|, Released(rs, us, lost, cost)) == Sum(a, |rs|, Released(rs, ts, lost, cost))
  {
    SumSame(a, |rs|, Released(rs, us, lost, cost), Released(rs, ts, lost, cost));
  }

  lemma ReleasedMore(rs: seq<Record>, ts: seq<Record>, us: seq<Record>, lost: nat -> bool, cost: nat -> nat, n: nat)
    requires n < |ts| == |rs| && OnlyAt(ts, us, n)
    ensures Sum(n, |rs|, Released(rs, us, lost, cost)) == Sum(n + 1, |rs|, Released(rs, ts, lost, cost))
            + if rs[n].residency == Resident && us[n].residency != Resident && !lost(n) then cost(n) else 0
  {
    SumFirst(n, |rs|, Released(rs, us, lost, cost));
    ReleasedSame(rs, ts, us, lost, cost, n + 1, n);
  }

  /** Units that the pass has not reached are not released. */
  lemma {:induction false} ReleasedNone(rs: seq<Record>, ts: seq<Record>, lost: nat -> bool, cost: nat -> nat,
                                        a: nat, n: nat)
    requires a <= n <= |rs| == |ts| && forall i: nat :: i < n ==> ts[i] == rs[i]
    ensures Sum(a, |rs|, Released(rs, ts, lost, cost)) == Sum(n, |rs|, Released(rs, ts, lost, cost))
    decreases n - a
  {
    if a < n {
      SumFirst(a, |rs|, Released(rs, ts, lost, cost));
      ReleasedNone(rs, ts, lost, cost, a + 1, n);
    }
  }

  lemma IdlingStill(l: Limits, w: World, s: State, ts: seq<Record>, us: seq<Record>, i: nat, n: nat)
    requires Whole(s, ts) && n < i < |ts| && OnlyAt(ts, us, n)
    ensures Idling(l, w, s, us, i) <==> Idling(l, w, s, ts, i)
  {
    ReleasedSame(s.records, ts, us, w.rootLost, One(), i + 1, n);
    ReleasedSame(s.records, ts, us, w.rootLost, ObjectsOf(s.manifest.value.units), i + 1, n);
  }

  lemma IdlingNow(l: Limits, w: World, s: State, t: State, us: seq<Record>, n: nat, units: nat, objects: nat)
    requires Whole(s, t.records) && t == s.(records := t.records) && n < |s.records| && OnlyAt(t.records, us, n)
    requires Relieved(w, s, t.records, n + 1, units, objects) && units < l.evictionUnits
    requires forall i: nat :: i <= n ==> t.records[i] == s.records[i]
    requires n !in s.manifest.value.graph[n]
    ensures Idling(l, w, s, us, n) <==> Removable(l, t, n, objects)
  {
    ReleasedSame(s.records, t.records, us, w.rootLost, One(), n + 1, n);
    ReleasedSame(s.records, t.records, us, w.rootLost, ObjectsOf(s.manifest.value.units), n + 1, n);
  }

  lemma RelievedNext(w: World, s: State, ts: seq<Record>, us: seq<Record>, n: nat, units: nat, objects: nat)
    requires Whole(s, ts) && n < |ts| && OnlyAt(ts, us, n) && Relieved(w, s, ts, n + 1, units, objects)
    ensures var out := s.records[n].residency == Resident && us[n].residency != Resident && !w.rootLost(n);
            Relieved(w, s, us, n, if out then units + 1 else units,
                     if out then objects + s.manifest.value.units[n].objectCount else objects)
  {
    ReleasedMore(s.records, ts, us, w.rootLost, One(), n);
    ReleasedMore(s.records, ts, us, w.rootLost, ObjectsOf(s.manifest.value.units), n);
  }

  lemma EvictedStill(l: Limits, w: World, s: State, ts: seq<Record>, us: seq<Record>, i: nat, n: nat)
    requires Whole(s, ts) && n < i < |ts| && OnlyAt(ts, us, n) && EvictedAt(l, w, s, ts, i)
    ensures EvictedAt(l, w, s, us, i)
  {
    hide Idling;
    IdlingStill(l, w, s, ts, us, i, n);
  }

  lemma EvictingNext(l: Limits, w: World, s: State, t: State, u: State, n: nat, units: nat, objects: nat)
    requires n < |s.records| && EvictedTo(l, w, s, t, n + 1, units, objects) && units < l.evictionUnits
    requires u == t.(records := u.records) && OnlyAt(t.records, u.records, n)
             && EvictTurn(l, w, t, n, objects, u.records[n])
    requires n !in s.manifest.value.graph[n]
    ensures var out := s.records[n].residency == Resident && u.records[n].residency != Resident && !w.rootLost(n);
            EvictedTo(l, w, s, u, n, if out then units + 1 else units,
                     if out then objects + s.manifest.value.units[n].objectCount else objects)
  {
    IdlingNow(l, w, s, t, u.records, n, units, objects);
    RelievedNext(w, s, t.records, u.records, n, units, objects);
    hide Relieved, Idling, Removable;
    assert EvictedAt(l, w, s, u.records, n);
    hide EvictTurn, EvictedAt;
    forall i: nat | n < i < |s.records| ensures EvictedAt(l, w, s, u.records, i) {
      EvictedStill(l, w, s, t.records, u.records, i, n);
    }
  }

  lemma EvictingEnds(l: Limits, w: World, s: State, t: State, n: nat, units: nat, objects: nat)
    requires EvictedTo(l, w, s, t, n, units, objects) && (n == 0 || units >= l.evictionUnits)
    ensures Eviction(l, w, s, t)
  {
    forall i: nat | i < n ensures EvictedAt(l, w, s, t.records, i) {
      ReleasedNone(s.records, t.records, w.rootLost, One(), i + 1, n);
    }
  }
}
