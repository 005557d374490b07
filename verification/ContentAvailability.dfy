/** The content residency service: demand, acquisition, admission and eviction of content units. */
module ContentAvailability {
  import opened DependencyGraph
  import opened Options
  import opened DependencyDemand
  import opened ResidencyState
  import opened CacheSpace
  import opened Settlement
  import opened TickPasses
  import opened Totals

  datatype Event =
    | RequestUnit(index: nat)
    | ReleaseUnit(index: nat)
    | Pin(index: nat)
    | Unpin(index: nat)
    | Retry(index: nat)
    | ContentArrives(job: nat, outcome: Outcome)
    | ManifestArrives(job: nat, result: Option<Manifest>)
    | Tick(world: World)

  /** Nothing but the counters of who asked differs from `rs`, and only at `i`, which becomes `r`. */
  ghost predicate AskedAt(rs: seq<Record>, ts: seq<Record>, i: nat, r: Record)
    requires i < |rs|
  {
    SameButDemand(rs, ts) && SameAsked(rs[i := r], ts)
  }

  /** No demand counter differs. */
  ghost predicate SameDemand(rs: seq<Record>, ts: seq<Record>) {
    && |rs| == |ts|
    && forall i :: 0 <= i < |rs| ==>
         && ts[i].directDemand == rs[i].directDemand
         && ts[i].dependencyDemand == rs[i].dependencyDemand
         && ts[i].pins == rs[i].pins
  }

  /** Every desired Resident unit stays Resident. */
  ghost predicate ResidentsKept(rs: seq<Record>, ts: seq<Record>) {
    && |rs| == |ts|
    && forall i :: 0 <= i < |rs| && rs[i].residency == Resident && Desire(rs[i]) != 0 ==> ts[i].residency == Resident
  }

  /** What a pass over the records leaves of an undesired unit. */
  ghost predicate Dropped(r: Record) {
    Desire(r) == 0 ==>
      && r.residency != Requested && r.residency != Available
      && (r.residency == Acquiring ==> r.cancelFlag == Some(true))
  }

  /** One asked counter moved, and what hangs on it; nothing else. */
  ghost predicate Counted(s: State, t: State, i: nat, r: Record)
    requires i < |s.records|
  {
    t == s.(records := t.records) && AskedAt(s.records, t.records, i, r)
  }

  /** `t` is what the event makes of `s`; an event that is refused or names nothing known changes nothing. */
  ghost predicate Follows(l: Limits, full: bool, e: Event, s: State, t: State) {
    var rs, n := s.records, |s.records|;
    match e
    case RequestUnit(i) =>
      if i < n && rs[i].directDemand != MAX_COUNT
      then Counted(s, t, i, rs[i].(directDemand := rs[i].directDemand + 1)) else t == s
    case ReleaseUnit(i) =>
      if i < n && rs[i].directDemand != 0 then Counted(s, t, i, rs[i].(directDemand := rs[i].directDemand - 1))
        else t == s
    case Pin(i) =>
      if i < n && rs[i].pins != MAX_COUNT then Counted(s, t, i, rs[i].(pins := rs[i].pins + 1)) else t == s
    case Unpin(i) =>
      if i < n && rs[i].pins != 0 then Counted(s, t, i, rs[i].(pins := rs[i].pins - 1)) else t == s
    case Retry(i) =>
      if i < n && rs[i].residency == Failed
      then Requests(l, s.(records := rs[i := rs[i].(residency := Unavailable)]), t) else t == s
    case ContentArrives(j, outcome) =>
      if j < |s.jobs| && s.jobs[j].ContentJob?
      then Reported(s, t, j, ContentDone(s.jobs[j].index, s.jobs[j].bytes, outcome)) else t == s
    case ManifestArrives(j, result) =>
      if j < |s.jobs| && s.jobs[j].ManifestJob? then Reported(s, t, j, ManifestDone(result)) else t == s
    case Tick(world) => exists p :: Ticked(l, full, world, s, p, t)
  }

  /** Job `j` is over, and its report is last in the queue. */
  ghost predicate Reported(s: State, t: State, j: nat, report: Completion)
    requires j < |s.jobs|
  {
    t == s.(jobs := s.jobs[..j] + s.jobs[j + 1..], completions := s.completions + [report],
            completionBytes := t.completionBytes)
  }

  /** What one iteration of the request pass may touch. */
  ghost predicate StartFrame(s: State, s': State, i: nat) {
    && |s'.records| == |s.records| && i < |s.records|
    && s'.records == s.records[i := s'.records[i]] && SameDemand(s.records, s'.records)
    && (s'.records[i].residency == Resident <==> s.records[i].residency == Resident)
    && (s'.records[i].residency == Failed ==> s.records[i].residency == Failed)
    && (s'.records[i].residency == Available ==> s.records[i].residency == Available)
    && s.inFlight <= s'.inFlight && s.reserved <= s'.reserved
    && s'.manifest == s.manifest && s'.taken == s.taken && s'.completions == s.completions
    && s'.cachedBytes == s.cachedBytes && s'.leaked == s.leaked
  }

  /** One turn of the request pass, with its ledger entries. */
  ghost predicate AskFrame(t: State, u: State, i: nat) {
    && OnlyAt(t.records, u.records, i) && Aside(t, u) && u.cachedBytes == t.cachedBytes
    && u.pending == t.pending + IsRequested(u.records[i]) - IsRequested(t.records[i])
    && t.manifest.Some? && |t.records| == |t.manifest.value.units| && LaunchesOne(t, u, i)
  }

  lemma RequestingStarts(l: Limits, s: State)
    requires Inv(l, s) && s.manifest.Some?
    ensures RequestedTo(l, s, s, 0)
  {
    ManifestAt(l, s);
    PendingAtFirst(l, s);
  }

  lemma PendingAtFirst(l: Limits, s: State)
    requires Inv(l, s)
    ensures PendingAt(s, s.records, 0) == s.pending
  {
    hide Records, Reports, OneJobEach, Closed;
    WaitingTotal(s.records, |s.records|);
    assert s.records[..|s.records|] == s.records;
  }

  lemma RequestingOn(l: Limits, s: State, t: State, u: State, i: nat)
    requires RequestedTo(l, s, t, i) && i < |s.records| && AskFrame(t, u, i)
    requires Whole(t, t.records) && AskTurn(l, t, i, u.records[i])
    ensures RequestedTo(l, s, u, i + 1)
  {
    hide AskTurn, PendingAt, AskedFor, Launches;
    RequestingNext(l, s, t, u, i);
  }

  lemma RequestingEnds(l: Limits, s: State, t: State)
    requires RequestedTo(l, s, t, |s.records|)
    ensures Requests(l, s, t)
  {
    hide AskedFor, PendingAt;
    LaunchesEnd(s, t, |s.records|);
  }

  /** What a whole request pass may touch. */
  ghost predicate PassFrame(s: State, s': State) {
    && SameDemand(s.records, s'.records)
    && (forall i :: 0 <= i < |s.records| ==>
        (s'.records[i].residency == Resident <==> s.records[i].residency == Resident))
    && (forall i :: 0 <= i < |s.records| && s'.records[i].residency in {Failed, Available} ==>
          s'.records[i].residency == s.records[i].residency)
    && s.inFlight <= s'.inFlight && s.reserved <= s'.reserved
    && s'.manifest == s.manifest && s'.taken == s.taken && s'.completions == s.completions
    && s'.cachedBytes == s.cachedBytes && s'.leaked == s.leaked
  }

  lemma PassStep(s: State, t: State, u: State, i: nat)
    requires PassFrame(s, t) && StartFrame(t, u, i)
    ensures PassFrame(s, u) && u.records == t.records[i := u.records[i]] && |u.records| == |t.records|
    ensures t.inFlight <= u.inFlight && t.reserved <= u.reserved
  {}

  lemma NoRecordsYet(l: Limits, s: State)
    requires Inv(l, s) && s.manifest.None?
    ensures s.records == []
  {}

  ghost predicate SameResidents(rs: seq<Record>, ts: seq<Record>) {
    && |rs| == |ts|
    && forall i :: 0 <= i < |rs| ==> (ts[i].residency == Resident <==> rs[i].residency == Resident)
  }

  lemma EvictKeepsResidents(l: Limits, s: State, ts: seq<Record>)
    requires Inv(l, s) && EvictFrame(s.records, ts)
    ensures SameDemand(s.records, ts) && SameResidents(s.records, ts)
  {
    forall i | 0 <= i < |ts| ensures ts[i].residency == Resident <==> s.records[i].residency == Resident {
      RecordAt(l, s, i);
    }
  }

  /** What settling a content report touches besides records and the cache. */
  ghost predicate SettleFrame(s: State, t: State) {
    && s.taken != [] && s.taken[0].ContentDone? && t.taken == s.taken[1..] && t.jobs == s.jobs
    && t.completions == s.completions && t.completionBytes == s.completionBytes
    && t.manifest == s.manifest && t.manifestInFlight == s.manifestInFlight && t.pending == s.pending
    && t.inFlight + 1 == s.inFlight && t.reserved + s.taken[0].reserved == s.reserved
  }

  lemma SameTwice(rs: seq<Record>, ss: seq<Record>, ts: seq<Record>)
    requires SameDemand(rs, ss) && SameDemand(ss, ts) && SameResidents(rs, ss) && SameResidents(ss, ts)
    ensures SameDemand(rs, ts) && SameResidents(rs, ts)
  {}

  lemma SettledAfterRoom(s: State, m: State, t: State)
    requires m == s.(records := m.records, cachedBytes := m.cachedBytes, leaked := m.leaked) && SettleFrame(m, t)
    ensures SettleFrame(s, t)
  {}

  /** The record that a stored payload leaves behind. */
  function Published(r: Record, reserved: nat, usable: bool): Record {
    r.(cancelFlag := None, residency := Available, cached := true, encodedBytes := reserved, prepared := usable)
  }

  lemma DependenciesStay(g: Graph, rs: seq<Record>, ts: seq<Record>, i: nat)
    requires i < |g| && SameResidents(rs, ts)
    ensures DependenciesResident(g, ts, i) <==> DependenciesResident(g, rs, i)
  {}

  /** A payload for which room was made, or could not be. */
  lemma RoomIsStored(l: Limits, s: State, m: State, t: State, i: nat, reserved: nat, hasDocument: bool)
    requires i < |s.records| == |m.records| && s.manifest.Some? && i < |s.manifest.value.graph|
    requires !s.records[i].cached && m.records[i] == s.records[i] && t.leaked == m.leaked
    requires Cleared(s.records, m.records, i, reserved + s.cachedBytes, l.maxCachedBytes, 0)
    requires m.leaked == s.leaked + Leaks(s.records, i, reserved + s.cachedBytes, l.maxCachedBytes, 0)
    requires var usable := hasDocument && DependenciesResident(s.manifest.value.graph, s.records, i);
             t.records == m.records[i := if reserved + s.cachedBytes <= l.maxCachedBytes + Freed(s.records, i, 0)
                                         then Published(s.records[i], reserved, usable)
                                         else s.records[i].(cancelFlag := None, residency := Failed)]
    ensures Stored(l, s, t, i, reserved, hasDocument)
  {
    hide Cleared, Leaks, Freed, DependenciesResident;
    assert t.records[i := s.records[i]] == m.records;
  }

  lemma CacheIsStored(l: Limits, s: State, t: State, i: nat, reserved: nat, hasDocument: bool)
    requires i < |s.records| && s.manifest.Some? && i < |s.manifest.value.graph|
    requires s.records[i].cached && t.leaked == s.leaked
    requires var usable := hasDocument && DependenciesResident(s.manifest.value.graph, s.records, i);
             t.records == s.records[i := Published(s.records[i], reserved, usable)]
    ensures Stored(l, s, t, i, reserved, hasDocument)
  {
    hide Cleared, Leaks, Freed, DependenciesResident;
  }

  /** A report that ends the job without a payload. */
  lemma FinishedIs(l: Limits, full: bool, s: State, t: State)
    requires SettleFrame(s, t) && s.taken[0].index < |s.records|
    requires s.records[s.taken[0].index].residency == Acquiring
    requires var i := s.taken[0].index;
             Finished(l, s, t, i, s.taken[0].reserved, s.taken[0].outcome)
    ensures Settled(l, full, s, t)
  {
    hide Finished;
  }

  /** A verified payload for a wanted unit that could not be stored. */
  ghost predicate Failing(s: State, t: State) {
    && s.taken != [] && s.taken[0].ContentDone? && s.taken[0].outcome.Prepared?
    && s.taken[0].index < |s.records| == |t.records|
    && Desire(s.records[s.taken[0].index]) != 0 && t.records[s.taken[0].index].residency == Failed
  }

  /** Same manifest, same demand, and no desired Resident unit lost. */
  ghost predicate Steady(s: State, t: State) {
    t.manifest == s.manifest && SameDemand(s.records, t.records) && ResidentsKept(s.records, t.records)
  }

  lemma SteadySame(s: State)
    ensures forall t: State :: t.manifest == s.manifest && t.records == s.records ==> Steady(s, t)
  {}

  lemma SteadyTwice(s: State, t: State, u: State)
    requires Steady(s, t) && Steady(t, u)
    ensures Steady(s, u)
  {
    assert forall i :: 0 <= i < |s.records| ==> Desire(t.records[i]) == Desire(s.records[i]);
  }

  lemma SteadyResidents(s: State, t: State)
    requires t.manifest == s.manifest && SameDemand(s.records, t.records) && SameResidents(s.records, t.records)
    ensures Steady(s, t)
  {}

  lemma SteadyTaken(s: State, t: State, u: State)
    requires t.manifest == s.manifest && t.records == s.records && Steady(t, u)
    ensures Steady(s, u)
  {}

  lemma NothingLeaksNothing(l: Limits, s: State)
    ensures LeaksOf(l, s, []) == 0
  {}

  /** Taking the batch changes nothing about what its first report will lose. */
  lemma BatchLeaks(l: Limits, s: State, t: State)
    requires TakenFrom(l, s, t) && l.maxCompletionsPerTick > 0
    ensures LeaksOf(l, t, t.taken) == LeaksOf(l, s, s.completions)
    ensures |s.completions| <= 1 || l.maxCompletionsPerTick == 1 ==> |t.taken| <= 1
  {
    hide LeaksFor;
    LeaksSame(l, s, t, t.taken);
    assert s.completions == [] <==> t.taken == [];
    assert t.taken != [] ==> t.taken[0] == s.completions[0];
    LeaksForSame(l, s, t);
  }

  lemma LeaksForSame(l: Limits, s: State, t: State)
    requires t.records == s.records && t.cachedBytes == s.cachedBytes
    ensures forall c :: LeaksFor(l, t, c) == LeaksFor(l, s, c)
  {}

  lemma SteadyNow(s: State)
    ensures Steady(s, s)
  {}

  lemma SteadyRecords(s: State, t: State)
    requires t.manifest == s.manifest && SameDemand(s.records, t.records) && ResidentsKept(s.records, t.records)
    ensures Steady(s, t)
  {}

  lemma SteadySizes(s: State, t: State)
    requires Steady(s, t)
    ensures |t.records| == |s.records| && t.manifest == s.manifest
  {}

  lemma EvictingOn(l: Limits, w: World, s: State, t: State, u: State, i: nat, units: nat, objects: nat, out: bool)
    requires EvictedTo(l, w, s, t, i + 1, units, objects) && i < |s.records| && units < l.evictionUnits
    requires u == t.(records := u.records) && OnlyAt(t.records, u.records, i) && Whole(t, t.records)
    requires EvictTurn(l, w, t, i, objects, u.records[i]) && i !in t.manifest.value.graph[i]
    requires out <==> t.records[i].residency == Resident && u.records[i].residency != Resident && !w.rootLost(i)
    ensures EvictedTo(l, w, s, u, i, if out then units + 1 else units,
                     if out then objects + t.manifest.value.units[i].objectCount else objects)
  {
    hide EvictTurn, EvictedAt, Relieved;
    EvictingNext(l, w, s, t, u, i, units, objects);
  }

  lemma SteadyPass(s: State, t: State)
    requires PassFrame(s, t)
    ensures Steady(s, t) && t.manifest == s.manifest && t.taken == s.taken && t.leaked == s.leaked
  {}

  lemma NoDependentResident(l: Limits, s: State, i: nat)
    requires Inv(l, s) && s.manifest.Some? && i < |s.records| && i < |s.manifest.value.dependents|
    requires !exists d :: d in s.manifest.value.dependents[i] && d < |s.records|
                          && s.records[d].residency in {Resident, Evicting}
    ensures NoResidentDependent(s, i)
  {
    ManifestAt(l, s);
  }

  /** The listed dependents of `i` are the units whose dependencies name it; none is between two residencies. */
  lemma DependentsMeet(l: Limits, s: State, i: nat)
    requires Inv(l, s) && i < |s.records|
    ensures s.manifest.Some? && i < |s.manifest.value.dependents| && Whole(s, s.records)
    ensures (exists d :: d in s.manifest.value.dependents[i] && d < |s.records|
                         && s.records[d].residency in {Resident, Evicting})
            <==> exists d: nat :: d < |s.records| && i in s.manifest.value.graph[d]
                                  && s.records[d].residency == Resident
  {
    hide Reports, OneJobEach, Flight, Bytes, Cache, Pending, Closed, WellFormed, Acyclic, DemandExact;
    ManifestAt(l, s);
    forall d: nat | d < |s.records| ensures RecordOk(s.manifest.value.units[d], s.records[d]) {
      RecordAt(l, s, d);
    }
  }

  /** One turn of the admission pass, with its ledger entries. */
  ghost predicate AdmitFrame(t: State, u: State, i: nat) {
    && OnlyAt(t.records, u.records, i) && Aside(t, u) && u.pending == t.pending
    && Whole(t, t.records) && LaunchesOne(t, u, i)
  }

  lemma AdmitFrameSteady(t: State, u: State, i: nat)
    requires AdmitFrame(t, u, i) && SameDemand(t.records, u.records) && ResidentsKept(t.records, u.records)
    ensures Steady(t, u) && u.taken == t.taken && u.leaked == t.leaked && u.manifest == t.manifest
  {}

  lemma AdmittingOn(l: Limits, w: World, s: State, t: State, u: State, i: nat, b: Budget, admitted: bool)
    requires AdmittedTo(l, w, s, t, i, b) && i < |s.records| && b.units < l.admissionUnits
    requires AdmitFrame(t, u, i) && AdmitTurn(l, w, t, i, b, u.records[i])
    requires admitted <==> t.records[i].residency != Resident && u.records[i].residency == Resident
    ensures AdmittedTo(l, w, s, u, i + 1, SpentNext(t, i, b, admitted))
  {
    hide AdmitTurn, AdmittedAt, Launches, LaunchesOne, Spent;
    AdmittingNext(l, w, s, t, u, i, b);
  }

  lemma AdmittingFirst(l: Limits, w: World, s: State)
    requires Inv(l, s) && s.manifest.Some?
    ensures AdmittedTo(l, w, s, s, 0, Budget(0, 0, 0)) && Whole(s, s.records)
  {
    ManifestAt(l, s);
    AdmittingStarts(l, w, s);
  }

  lemma EvictingFirst(l: Limits, w: World, s: State)
    requires Inv(l, s) && s.manifest.Some?
    ensures EvictedTo(l, w, s, s, |s.records|, 0, 0) && Whole(s, s.records)
  {
    ManifestAt(l, s);
  }

  lemma WorkerRoom(l: Limits, s: State, k: nat)
    requires Inv(l, s) && k < |s.jobs| && s.jobs[k].ContentJob?
    ensures s.completionBytes + s.jobs[k].bytes <= l.maxCompletedBytes
  {
    hide Records, Reports, OneJobEach, Closed;
    QueuedWithinReserved(l, s);
    TotalMember(s.jobs, k, JobBytes);
  }

  lemma QueueWithinLimit(l: Limits, s: State)
    requires Inv(l, s)
    ensures s.completionBytes <= s.reserved <= l.maxCompletedBytes
  {
    hide Records, Reports, OneJobEach, Closed;
    QueuedWithinReserved(l, s);
  }

  lemma TakeRoom(l: Limits, s: State, n: nat)
    requires Inv(l, s) && n <= |s.completions|
    ensures Total(s.completions[..n], PayloadBytes) <= s.completionBytes
  {
    hide Records, Reports, OneJobEach, Closed;
    assert s.completions == s.completions[..n] + s.completions[n..];
    TotalConcat(s.completions[..n], s.completions[n..], PayloadBytes);
  }

  lemma NothingTaken(cs: seq<Completion>, n: nat)
    requires n <= |cs|
    ensures Total(cs[..0], PayloadBytes) == 0 && cs[..0] == []
            && Total(cs[0..n], PayloadBytes) == Total(cs[..n], PayloadBytes)
  {
    assert cs[0..n] == cs[..n];
  }

  /** Moving one report over moves its bytes over. */
  lemma OneMoreTaken(cs: seq<Completion>, k: nat, n: nat)
    requires k < n <= |cs|
    ensures cs[..k + 1] == cs[..k] + [cs[k]]
    ensures Total(cs[..k + 1], PayloadBytes) == Total(cs[..k], PayloadBytes) + PayloadBytes(cs[k])
    ensures Total(cs[k..n], PayloadBytes) == PayloadBytes(cs[k]) + Total(cs[k + 1..n], PayloadBytes)
  {
    assert cs[..k + 1] == cs[..k] + [cs[k]];
    TotalAppend(cs[..k], cs[k], PayloadBytes);
    assert cs[k..n] == [cs[k]] + cs[k + 1..n];
  }

  lemma TakenIs(l: Limits, s: State, t: State, n: nat)
    requires TakeMove(s, n, t) && n == Min(l.maxCompletionsPerTick, |s.completions|)
    ensures TakenFrom(l, s, t)
  {
    assert s.completions == s.completions[..n] + s.completions[n..];
  }

  /** Cache eviction touches evictable units only, and each becomes its evicted form. */
  ghost predicate EvictFrame(rs: seq<Record>, ts: seq<Record>) {
    && |rs| == |ts|
    && forall j :: 0 <= j < |rs| ==> ts[j] == rs[j] || (Evictable(rs[j]) && ts[j] == Evicted(rs[j]))
  }

  lemma ClearedFrame(rs: seq<Record>, ts: seq<Record>, preserved: nat, need: nat, limit: nat, n: nat)
    requires Cleared(rs, ts, preserved, need, limit, n)
    ensures EvictFrame(rs, ts) && (preserved < |rs| ==> ts[preserved] == rs[preserved])
  {
    hide Evicted;
  }

  lemma EvictableIs(r: Record)
    ensures Evictable(r) <==> r.cached && r.residency != Acquiring && (r.root || Desire(r) == 0)
  {}

  lemma EvictedStays(r: Record)
    ensures !Evictable(Evicted(r))
  {}

  lemma StartFrameTwice(s: State, t: State, u: State, i: nat)
    requires StartFrame(s, t, i) && StartFrame(t, u, i)
    ensures StartFrame(s, u, i)
  {}

  function Min(a: nat, b: nat): nat { if a < b then a else b }

  ghost function Idle(rs: seq<Record>): set<nat> {
    set i | 0 <= i < |rs| && Desire(rs[i]) == 0
  }

  ghost function Busy(rs: seq<Record>): set<nat> {
    set i | 0 <= i < |rs| && Desire(rs[i]) != 0
  }

  lemma ShrinkOn(rs: seq<Record>, v: nat)
    requires v < |rs|
    ensures Desire(rs[v]) == 0 ==> |Idle(rs[v := Raised(rs[v])])| < |Idle(rs)|
    ensures Desire(rs[v]) != 0 ==> Idle(rs[v := Raised(rs[v])]) == Idle(rs)
  {
    var ts := rs[v := Raised(rs[v])];
    if Desire(rs[v]) == 0 {
      assert Idle(rs) == Idle(ts) + {v} && v !in Idle(ts);
    }
  }

  lemma ShrinkOff(rs: seq<Record>, v: nat)
    requires v < |rs| && rs[v].dependencyDemand > 0
    ensures Desire(Lowered(rs[v])) == 0 ==> |Busy(rs[v := Lowered(rs[v])])| < |Busy(rs)|
    ensures Desire(Lowered(rs[v])) != 0 ==> Busy(rs[v := Lowered(rs[v])]) == Busy(rs)
  {
    var ts := rs[v := Lowered(rs[v])];
    if Desire(Lowered(rs[v])) == 0 {
      assert Busy(rs) == Busy(ts) + {v} && v !in Busy(ts);
    }
  }

  class ContentAvailabilityService {
    const limits: Limits
    const fullyResident: bool
    var manifest: Option<Manifest>
    var records: seq<Record>
    var jobs: seq<Job>
    var taken: seq<Completion>
    var completions: seq<Completion>
    var completionBytes: nat
    var inFlight: nat
    var reserved: nat
    var pending: nat
    var cachedBytes: nat
    var manifestInFlight: bool
    var manifestFailed: bool
    ghost var leaked: nat

    ghost function S(): State
      reads this
    {
      State(manifest, records, jobs, taken, completions, completionBytes, inFlight, reserved, pending,
            cachedBytes, manifestInFlight, leaked)
    }

    ghost predicate Valid()
      reads this
    {
      Inv(limits, S())
    }

    constructor (l: Limits, full: bool)
      requires LimitsOk(l)
      ensures Valid() && S() == Initial() && limits == l && fullyResident == full
    {
      limits, fullyResident := l, full;
      manifest, records, taken, completions := None, [], [], [];
      jobs := [ManifestJob];
      completionBytes, inFlight, reserved, pending, cachedBytes := 0, 1, 0, 0, 0;
      manifestInFlight, manifestFailed := true, false;
      leaked := 0;
      new;
      InitialOk(l);
    }

    /** Propagates one unit's change of desire through its dependencies with an explicit worklist. */
    method AdjustDependencies(index: nat, add: bool)
      requires manifest.Some? && WellFormed(manifest.value.graph) && |manifest.value.graph| <= MAX_COUNT
      requires index < |manifest.value.graph|
      requires add ==> Rising(manifest.value.graph, records, manifest.value.graph[index])
      requires !add ==> Falling(manifest.value.graph, records, manifest.value.graph[index])
      modifies this`records
      ensures DemandExact(manifest.value.graph, records)
      ensures SameButDemand(old(records), records) && SameAsked(old(records), records)
    {
      hide Rising, Falling, WellFormed;
      ghost var g := manifest.value.graph;
      var owed := manifest.value.graph[index];
      assert |records| == |g| by { RisingLength(g, records, owed); }
      while owed != []
        invariant manifest == old(manifest) && |records| == |g|
        invariant add ==> Rising(g, records, owed)
        invariant !add ==> Falling(g, records, owed)
        invariant SameButDemand(old(records), records) && SameAsked(old(records), records)
        decreases if add then |Idle(records)| else |Busy(records)|, |owed|
      {
        var v := owed[|owed| - 1];
        assert owed == owed[..|owed| - 1] + [v];
        owed := owed[..|owed| - 1];
        if add {
          RaiseOne(g, records, owed, v);
          ShrinkOn(records, v);
          if records[v].dependencyDemand == MAX_COUNT {
            assert false;
          }
          var prior := Desire(records[v]);
          records := records[v := Raised(records[v])];
          if prior != 0 {
            continue;
          }
        } else {
          LowerOne(g, records, owed, v);
          ShrinkOff(records, v);
          if records[v].dependencyDemand == 0 {
            assert false;
          }
          records := records[v := Lowered(records[v])];
          if Desire(records[v]) != 0 {
            continue;
          }
        }
        owed := owed + manifest.value.graph[v];
      }
      NothingOwed(g, records);
    }

    /** Counts one more direct request; the first one propagates to the dependencies. */
    method Request(i: nat) returns (ok: bool)
      requires Valid() && i < |records|
      modifies this`records
      ensures Valid() && SameButDemand(old(records), records)
      ensures ok <==> old(records)[i].directDemand != MAX_COUNT
      ensures ok ==> AskedAt(old(records), records, i,
                             old(records)[i].(directDemand := old(records)[i].directDemand + 1))
      ensures !ok ==> records == old(records)
    {
      hide Inv, DemandExact, WellFormed, Acyclic, Rising, Falling;
      RecordAt(limits, S(), i);
      ManifestAt(limits, S());
      var r := records[i];
      if r.directDemand == MAX_COUNT {
        return false;
      }
      var prior := Desire(r);
      records := records[i := r.(directDemand := r.directDemand + 1)];
      AskMore(manifest.value.graph, old(records), i, records[i]);
      if r.directDemand == 0 && prior == 0 {
        AdjustDependencies(i, true);
      }
      DemandKeeps(limits, old(S()), S());
      return true;
    }

    /** Gives one direct request back; the last reason to want the unit propagates its end. */
    method Release(i: nat) returns (ok: bool)
      requires Valid() && i < |records|
      modifies this`records
      ensures Valid() && SameButDemand(old(records), records)
      ensures ok <==> old(records)[i].directDemand != 0
      ensures ok ==> AskedAt(old(records), records, i,
                             old(records)[i].(directDemand := old(records)[i].directDemand - 1))
      ensures !ok ==> records == old(records)
    {
      hide Inv, DemandExact, WellFormed, Acyclic, Rising, Falling;
      RecordAt(limits, S(), i);
      ManifestAt(limits, S());
      var r := records[i];
      if r.directDemand == 0 {
        return false;
      }
      records := records[i := r.(directDemand := r.directDemand - 1)];
      AskLess(manifest.value.graph, old(records), i, records[i]);
      if Desire(records[i]) == 0 {
        AdjustDependencies(i, false);
      }
      DemandKeeps(limits, old(S()), S());
      return true;
    }

    method PinContent(i: nat) returns (ok: bool)
      requires Valid()
      modifies this`records
      ensures Valid() && SameButDemand(old(records), records)
      ensures ok <==> i < |old(records)| && old(records)[i].pins != MAX_COUNT
      ensures ok ==> AskedAt(old(records), records, i, old(records)[i].(pins := old(records)[i].pins + 1))
      ensures !ok ==> records == old(records)
    {
      hide Inv, DemandExact, WellFormed, Acyclic, Rising, Falling;
      if i >= |records| || records[i].pins == MAX_COUNT {
        return false;
      }
      RecordAt(limits, S(), i);
      ManifestAt(limits, S());
      var r := records[i];
      var prior := Desire(r);
      records := records[i := r.(pins := r.pins + 1)];
      AskMore(manifest.value.graph, old(records), i, records[i]);
      if prior == 0 {
        AdjustDependencies(i, true);
      }
      DemandKeeps(limits, old(S()), S());
      return true;
    }

    method UnpinContent(i: nat) returns (ok: bool)
      requires Valid()
      modifies this`records
      ensures Valid() && SameButDemand(old(records), records)
      ensures ok <==> i < |old(records)| && old(records)[i].pins != 0
      ensures ok ==> AskedAt(old(records), records, i, old(records)[i].(pins := old(records)[i].pins - 1))
      ensures !ok ==> records == old(records)
    {
      hide Inv, DemandExact, WellFormed, Acyclic, Rising, Falling;
      if i >= |records| || records[i].pins == 0 {
        return false;
      }
      RecordAt(limits, S(), i);
      ManifestAt(limits, S());
      var r := records[i];
      records := records[i := r.(pins := r.pins - 1)];
      AskLess(manifest.value.graph, old(records), i, records[i]);
      if Desire(records[i]) == 0 {
        AdjustDependencies(i, false);
      }
      DemandKeeps(limits, old(S()), S());
      return true;
    }

    /** Hands a Requested unit without cached bytes to the provider. */
    method SubmitContent(i: nat)
      requires Valid() && i < |records| && records[i].residency == Requested && CanLaunch(limits, S(), i)
      modifies this
      ensures Valid() && S() == Launched(limits, old(S()), i)
    {
      hide Inv;
      RecordAt(limits, S(), i);
      LaunchKeeps(limits, S(), i);
      records := records[i := records[i].(residency := Acquiring, cancelFlag := Some(false))];
      pending := pending - 1;
      inFlight := inFlight + 1;
      var expected := manifest.value.units[i].compressedBytes;
      reserved := reserved + expected;
      jobs := jobs + [ContentJob(i, expected)];
    }

    /** Decodes a unit again from its cached bytes on the same worker pool. */
    method SubmitCachedContent(i: nat)
      requires Valid() && i < |records| && records[i].cached && CanLaunch(limits, S(), i)
      modifies this
      ensures Valid() && S() == Launched(limits, old(S()), i)
    {
      hide Inv;
      RecordAt(limits, S(), i);
      LaunchKeeps(limits, S(), i);
      if records[i].residency == Requested {
        pending := pending - 1;
      }
      var expected := records[i].encodedBytes;
      records := records[i := records[i].(residency := Acquiring, cancelFlag := Some(false))];
      inFlight := inFlight + 1;
      reserved := reserved + expected;
      jobs := jobs + [ContentJob(i, expected)];
    }

    /** Drops a unit nobody wants: unpublished work is abandoned, running work is told to stop. */
    method DropUnit(i: nat)
      requires Valid() && i < |records| && Desire(records[i]) == 0
      modifies this
      ensures Valid() && StartFrame(old(S()), S(), i) && Dropped(records[i])
      ensures records[i].residency == if old(records)[i].residency in {Available, Requested} then Unavailable
                                      else old(records)[i].residency
      ensures pending == old(pending) - IsRequested(old(records)[i])
      ensures S() == old(S()).(records := records, pending := pending)
      ensures manifest.Some? && Whole(old(S()), old(records)) && AskTurn(limits, old(S()), i, records[i])
    {
      hide Inv;
      RecordAt(limits, S(), i);
      var r := records[i];
      if r.residency == Available {
        r := r.(prepared := false, residency := Unavailable);
      }
      if r.residency == Requested {
        r := r.(residency := Unavailable);
        if pending != 0 {
          pending := pending - 1;
        }
      }
      if r.residency == Acquiring && r.cancelFlag.Some? {
        r := r.(cancelFlag := Some(true));
      }
      records := records[i := r];
      RecordMoveKeeps(limits, old(S()), i, r, S());
    }

    /** Queues a wanted unit while the pending budget lasts. */
    method QueueUnit(i: nat)
      requires Valid() && i < |records| && records[i].residency == Unavailable
      modifies this
      ensures Valid() && StartFrame(old(S()), S(), i)
      ensures old(pending) >= limits.maxPending ==> S() == old(S())
      ensures old(pending) < limits.maxPending ==>
                S() == old(S()).(records := old(records)[i := old(records)[i].(residency := Requested)],
                                 pending := old(pending) + 1)
    {
      hide Inv;
      RecordAt(limits, S(), i);
      if pending >= limits.maxPending {
        return;
      }
      records := records[i := records[i].(residency := Requested)];
      pending := pending + 1;
      RecordMoveKeeps(limits, old(S()), i, records[i], S());
    }

    /** Launches a Requested unit if a worker slot and payload room are left. */
    method LaunchUnit(i: nat)
      requires Valid() && i < |records| && records[i].residency == Requested
      modifies this
      ensures Valid() && StartFrame(old(S()), S(), i)
      ensures records[i].residency == Requested ==> Blocked(i)
      ensures manifest.Some? && i < |manifest.value.units|
      ensures if old(inFlight) < limits.maxInFlight
                 && old(reserved) + manifest.value.units[i].compressedBytes <= limits.maxCompletedBytes
              then CanLaunch(limits, old(S()), i) && S() == Launched(limits, old(S()), i)
              else S() == old(S())
    {
      hide Inv;
      RecordAt(limits, S(), i);
      var expected := manifest.value.units[i].compressedBytes;
      if expected > limits.maxCompletedBytes - Min(reserved, limits.maxCompletedBytes) {
        return;
      }
      if inFlight >= limits.maxInFlight {
        return;
      }
      if records[i].cached {
        SubmitCachedContent(i);
      } else {
        SubmitContent(i);
      }
    }

    /** One iteration of the request pass. */
    method StartUnit(i: nat)
      requires Valid() && i < |records|
      modifies this
      ensures Valid() && StartFrame(old(S()), S(), i)
      ensures Dropped(records[i])
      ensures records[i].residency == Requested ==> Blocked(i)
      ensures Whole(old(S()), old(records)) && AskTurn(limits, old(S()), i, records[i])
      ensures AskFrame(old(S()), S(), i)
    {
      hide Inv, Blocked;
      RecordAt(limits, S(), i);
      if Desire(records[i]) == 0 {
        DropUnit(i);
        return;
      }
      if records[i].residency == Unavailable {
        QueueUnit(i);
      }
      if records[i].residency != Requested {
        return;
      }
      ghost var queued := S();
      LaunchUnit(i);
      StartFrameTwice(old(S()), queued, S(), i);
    }

    /** The request pass over all units. */
    method StartRequests()
      requires Valid()
      modifies this
      ensures Valid() && PassFrame(old(S()), S())
      ensures forall i :: 0 <= i < |records| ==> Dropped(records[i])
      ensures forall i :: 0 <= i < |records| && records[i].residency == Requested ==> Blocked(i)
      ensures if manifest.Some? then Requests(limits, old(S()), S()) else S() == old(S())
    {
      hide Inv, Dropped, StartFrame, AskTurn, AskFrame, RequestedTo, Requests;
      if manifest.None? {
        NoRecordsYet(limits, S());
        return;
      }
      RequestingStarts(limits, S());
      for i := 0 to |records|
        invariant Valid() && PassFrame(old(S()), S()) && RequestedTo(limits, old(S()), S(), i)
        invariant forall j :: 0 <= j < i ==> Dropped(records[j])
        invariant forall j :: 0 <= j < i && records[j].residency == Requested ==> Blocked(j)
      {
        ghost var before := S();
        StartUnit(i);
        PassStep(old(S()), before, S(), i);
        RequestingOn(limits, old(S()), before, S(), i);
      }
      RequestingEnds(limits, old(S()), S());
    }

    /** Frees cached payloads, last unit first, until `required` bytes fit, and no further.
        An evicted Requested unit becomes Unavailable without giving its pending slot back. */
    method MakeCacheSpace(required: nat, preserved: nat)
      requires Valid() && preserved < |records|
      modifies this`records, this`cachedBytes, this`leaked
      ensures Valid() && EvictFrame(old(records), records) && records[preserved] == old(records)[preserved]
      ensures Cleared(old(records), records, preserved, required + old(cachedBytes), limits.maxCachedBytes, 0)
      ensures leaked == old(leaked) + Leaks(old(records), preserved, required + old(cachedBytes),
                                            limits.maxCachedBytes, 0)
      ensures required + cachedBytes > limits.maxCachedBytes ==>
                forall j :: 0 <= j < |records| && j != preserved ==> !Evictable(records[j])
      ensures required + cachedBytes <= limits.maxCachedBytes <==>
              required + old(cachedBytes) <= limits.maxCachedBytes + Freed(old(records), preserved, 0)
    {
      hide Inv, Cleared, EvictFrame, Leaks, Freed, Evictable, Evicted;
      RecordAt(limits, S(), preserved);
      ghost var rs, need, limit := records, required + cachedBytes, limits.maxCachedBytes;
      ClearNothing(rs, preserved, need, limit);
      if required <= limits.maxCachedBytes - Min(cachedBytes, limits.maxCachedBytes) {
        ClearStop(rs, records, preserved, need, limit, |rs|);
        ClearedFrame(rs, records, preserved, need, limit, 0);
        return;
      }
      var i: nat := |records|;
      while i > 0
        invariant i <= |records| == |rs| && Valid()
        invariant Cleared(rs, records, preserved, need, limit, i)
                  && leaked == old(leaked) + Leaks(rs, preserved, need, limit, i)
        invariant cachedBytes + Freed(rs, preserved, i) == old(cachedBytes) <= limit
                  && need > limit + Freed(rs, preserved, i)
        invariant forall j :: i <= j < |records| && j != preserved ==> !Evictable(records[j])
      {
        i := i - 1;
        ClearStep(rs, records, preserved, need, limit, i);
        EvictableIs(records[i]);
        if i == preserved {
          continue;
        }
        if !records[i].cached || records[i].residency == Acquiring || (!records[i].root && Desire(records[i]) != 0) {
          continue;
        }
        EvictedStays(records[i]);
        EvictPayload(i);
        if required <= limits.maxCachedBytes - Min(cachedBytes, limits.maxCachedBytes) {
          ClearStop(rs, records, preserved, need, limit, i);
          FreedGrows(rs, preserved, 0, i);
          ClearedFrame(rs, records, preserved, need, limit, 0);
          return;
        }
      }
      ClearedFrame(rs, records, preserved, need, limit, 0);
    }

    method EvictPayload(i: nat)
      requires Valid() && i < |records| && Evictable(records[i])
      modifies this`records, this`cachedBytes, this`leaked
      ensures Valid() && records == old(records)[i := Evicted(old(records)[i])]
      ensures cachedBytes == old(cachedBytes) - old(records)[i].encodedBytes <= limits.maxCachedBytes
      ensures leaked == old(leaked) + IsRequested(old(records)[i])
    {
      hide Inv;
      RecordAt(limits, S(), i);
      leaked := leaked + IsRequested(records[i]);
      cachedBytes := cachedBytes - records[i].encodedBytes;
      var r := records[i].(cached := false, encodedBytes := 0);
      if !r.root {
        r := r.(prepared := false, residency := Unavailable);
      }
      records := records[i := r];
      RecordMoveKeeps(limits, old(S()), i, records[i], S());
    }

    /** A worker settles content job `k`; the queue's byte check can never refuse it. */
    method WorkerFinishesContent(k: nat, outcome: Outcome)
      requires Valid() && k < |jobs| && jobs[k].ContentJob?
      modifies this`jobs, this`completions, this`completionBytes
      ensures Valid()
      ensures jobs == old(jobs)[..k] + old(jobs)[k + 1..]
      ensures completions == old(completions) + [ContentDone(old(jobs)[k].index, old(jobs)[k].bytes, outcome)]
      ensures completionBytes <= reserved <= limits.maxCompletedBytes
    {
      hide Inv;
      var job := jobs[k];
      var report := ContentDone(job.index, job.bytes, outcome);
      WorkerRoom(limits, S(), k);
      jobs := jobs[..k] + jobs[k + 1..];
      if outcome.Prepared? {
        if job.bytes > limits.maxCompletedBytes - Min(completionBytes, limits.maxCompletedBytes) {
          assert false;
        }
        completionBytes := completionBytes + job.bytes;
      }
      completions := completions + [report];
      WorkerKeeps(limits, old(S()), k, report, S());
      QueueWithinLimit(limits, S());
    }

    method WorkerFinishesManifest(k: nat, result: Option<Manifest>)
      requires Valid() && k < |jobs| && jobs[k].ManifestJob?
      requires result.Some? ==> ManifestOk(limits, result.value)
      modifies this`jobs, this`completions
      ensures Valid()
      ensures jobs == old(jobs)[..k] + old(jobs)[k + 1..] && completions == old(completions) + [ManifestDone(result)]
    {
      hide Inv, ManifestOk;
      jobs := jobs[..k] + jobs[k + 1..];
      completions := completions + [ManifestDone(result)];
      WorkerKeeps(limits, old(S()), k, ManifestDone(result), S());
    }

    /** The locked section of a Step: move the oldest reports out of the queue. */
    method TakeCompletions()
      requires Valid() && taken == []
      modifies this`taken, this`completions, this`completionBytes
      ensures Valid() && TakenFrom(limits, old(S()), S())
    {
      hide Inv, Total, PayloadBytes, TakenFrom;
      var count := Min(limits.maxCompletionsPerTick, |completions|);
      TakeRoom(limits, S(), count);
      MoveReports(count);
      completions := completions[count..];
      TakeKeeps(limits, old(S()), count, S());
      TakenIs(limits, old(S()), S(), count);
    }

    method MoveReports(count: nat)
      requires taken == [] && count <= |completions| && Total(completions[..count], PayloadBytes) <= completionBytes
      modifies this`taken, this`completionBytes
      ensures taken == completions[..count]
      ensures completionBytes + Total(completions[..count], PayloadBytes) == old(completionBytes)
    {
      hide Total, PayloadBytes;
      NothingTaken(completions, count);
      for index := 0 to count
        invariant taken == completions[..index]
        invariant completionBytes + Total(completions[..index], PayloadBytes) == old(completionBytes)
        invariant completionBytes >= Total(completions[index..count], PayloadBytes)
      {
        var item := completions[index];
        OneMoreTaken(completions, index, count);
        completionBytes := completionBytes - PayloadBytes(item);
        taken := taken + [item];
      }
    }

    /** Settles a manifest report: records appear, and bootstrap units are requested. */
    method FinishManifest()
      requires Valid() && taken != [] && taken[0].ManifestDone?
      modifies this
      ensures Valid() && taken == old(taken)[1..] && leaked == old(leaked)
      ensures old(manifest).None? && !manifestInFlight
      ensures manifest == old(taken)[0].result && manifestFailed == (old(manifestFailed) || manifest.None?)
      ensures manifest.Some? ==> |records| == |manifest.value.units| && forall i :: 0 <= i < |records| ==>
                records[i].residency == Unavailable && records[i].pins == 0 && !records[i].cached
                && records[i].directDemand == if fullyResident || manifest.value.units[i].atBootstrap then 1 else 0
      ensures Settled(limits, fullyResident, old(S()), S())
    {
      hide Inv, ManifestOk;
      LoadReady(limits, S());
      inFlight := inFlight - 1;
      var result := taken[0].result;
      taken := taken[1..];
      manifestInFlight := false;
      if result.None? {
        manifestFailed := true;
        LoadKeeps(limits, old(S()), S());
        return;
      }
      manifest := result;
      records := seq(|result.value.units|, _ => BLANK);
      LoadKeeps(limits, old(S()), S());
      for i := 0 to |records|
        modifies this`records
        invariant Valid() && |records| == |result.value.units|
        invariant forall j :: 0 <= j < |records| ==>
                    records[j].residency == Unavailable && records[j].pins == 0 && !records[j].cached
                    && records[j].directDemand == if j < i && (fullyResident || result.value.units[j].atBootstrap)
                       then 1 else 0
      {
        if fullyResident || result.value.units[i].atBootstrap {
          var _ := Request(i);
        }
      }
    }

    /** Ends the job of the first taken report and stores the unit's next record. */
    method Settle(r: Record)
      requires Valid() && taken != [] && taken[0].ContentDone? && taken[0].index < |records|
      requires records[taken[0].index].residency == Acquiring && inFlight > 0 && taken[0].reserved <= reserved
      requires manifest.Some? && taken[0].index < |manifest.value.units|
      requires r.residency in {Unavailable, Failed, Available} && RecordOk(manifest.value.units[taken[0].index], r)
      requires r == records[taken[0].index].(residency := r.residency, cancelFlag := r.cancelFlag, cached := r.cached,
                                             prepared := r.prepared, encodedBytes := r.encodedBytes)
      requires records[taken[0].index].encodedBytes <= cachedBytes + r.encodedBytes
      requires cachedBytes + r.encodedBytes - records[taken[0].index].encodedBytes <= limits.maxCachedBytes
      modifies this
      ensures Valid() && manifest == old(manifest) && taken == old(taken)[1..] && leaked == old(leaked)
      ensures records == old(records)[old(taken)[0].index := r]
      ensures cachedBytes == old(cachedBytes) + r.encodedBytes - old(records)[old(taken)[0].index].encodedBytes
      ensures SettleFrame(old(S()), S())
    {
      hide Inv;
      var i := taken[0].index;
      inFlight := inFlight - 1;
      reserved := reserved - taken[0].reserved;
      cachedBytes := cachedBytes + r.encodedBytes - records[i].encodedBytes;
      records := records[i := r];
      taken := taken[1..];
      FinishKeeps(limits, old(S()), r, S());
    }

    /** Settles a content report, exactly as `Finished` says. The unit ends Unavailable when cancelled or unwanted, Failed
        when the worker failed or no cache room could be made, and Available otherwise. */
    method FinishContent()
      requires Valid() && taken != [] && taken[0].ContentDone?
      modifies this
      ensures Valid() && manifest == old(manifest) && taken == old(taken)[1..]
      ensures SameDemand(old(records), records) && SameResidents(old(records), records)
      ensures leaked == old(leaked) + LeaksFor(limits, old(S()), old(taken)[0])
      ensures Settled(limits, fullyResident, old(S()), S())
      ensures Failing(old(S()), S()) ==> NoRoom(old(taken)[0].index, old(taken)[0].reserved)
    {
      hide Inv, RecordMove, Leaks, Stored, NoRoom, SameDemand, SameResidents;
      var report := taken[0];
      var i := report.index;
      FinishReady(limits, S());
      RecordAt(limits, S(), i);
      var r := records[i];
      if Desire(r) == 0 || r.cancelFlag == Some(true) {
        Drop(Unavailable);
      } else if report.outcome.Rejected? {
        Drop(Failed);
      } else {
        StorePayload();
      }
      FinishedIs(limits, fullyResident, old(S()), S());
    }

    /** Ends the job of the first taken report without keeping a payload. */
    method Drop(to: Residency)
      requires Valid() && taken != [] && taken[0].ContentDone? && taken[0].index < |records|
      requires to == Unavailable || to == Failed
      modifies this
      ensures Valid() && SettleFrame(old(S()), S()) && leaked == old(leaked)
      ensures SameDemand(old(records), records) && SameResidents(old(records), records)
      ensures records == old(records)[old(taken)[0].index :=
                                      old(records)[old(taken)[0].index].(residency := to, cancelFlag := None)]
    {
      hide Inv;
      FinishReady(limits, S());
      RecordAt(limits, S(), taken[0].index);
      Settle(records[taken[0].index].(cancelFlag := None, residency := to));
    }

    method MakeRoom(i: nat, required: nat) returns (fits: bool)
      requires Valid() && i < |records|
      modifies this`records, this`cachedBytes, this`leaked
      ensures Valid() && SameDemand(old(records), records) && SameResidents(old(records), records)
      ensures records[i] == old(records)[i] && records[i].encodedBytes <= cachedBytes <= limits.maxCachedBytes
      ensures fits <==> required + cachedBytes <= limits.maxCachedBytes
      ensures !fits ==> NoRoom(i, required)
      ensures fits <==> required + old(cachedBytes) <= limits.maxCachedBytes + Freed(old(records), i, 0)
      ensures Cleared(old(records), records, i, required + old(cachedBytes), limits.maxCachedBytes, 0)
      ensures leaked == old(leaked) + Leaks(old(records), i, required + old(cachedBytes), limits.maxCachedBytes, 0)
    {
      hide Inv, Leaks, Cleared, Freed;
      MakeCacheSpace(required, i);
      EvictKeepsResidents(limits, old(S()), records);
      RecordAt(limits, S(), i);
      fits := required <= limits.maxCachedBytes - Min(cachedBytes, limits.maxCachedBytes);
    }

    /** Caches the first taken payload, making room if needed, and publishes the unit as Available. */
    method StorePayload()
      requires Valid() && taken != [] && taken[0].ContentDone? && taken[0].outcome.Prepared?
      modifies this
      ensures Valid() && manifest == old(manifest) && taken == old(taken)[1..]
      ensures SameDemand(old(records), records) && SameResidents(old(records), records)
      ensures leaked == old(leaked) + if old(records)[old(taken)[0].index].cached then 0 else
                Leaks(old(records), old(taken)[0].index, old(taken)[0].reserved + old(cachedBytes),
                      limits.maxCachedBytes, 0)
      ensures SettleFrame(old(S()), S())
      ensures Stored(limits, old(S()), S(), old(taken)[0].index, old(taken)[0].reserved,
                     old(taken)[0].outcome.hasDocument)
      ensures records[old(taken)[0].index].residency == Failed ==> NoRoom(old(taken)[0].index, old(taken)[0].reserved)
    {
      hide Inv, DependenciesResident, Desire, Evictable, Leaks, Cleared, Freed, Stored, SameDemand, SameResidents,
        NoRoom;
      FinishReady(limits, S());
      RecordAt(limits, S(), taken[0].index);
      if records[taken[0].index].cached {
        StoreCached();
      } else {
        StoreFresh();
      }
    }

    /** The payload was cached all along: it was sent through the workers for its document. */
    method StoreCached()
      requires Valid() && taken != [] && taken[0].ContentDone? && taken[0].outcome.Prepared?
      requires taken[0].index < |records| && records[taken[0].index].cached
      modifies this
      ensures Valid() && SameDemand(old(records), records) && SameResidents(old(records), records)
      ensures leaked == old(leaked) && SettleFrame(old(S()), S())
      ensures Stored(limits, old(S()), S(), old(taken)[0].index, old(taken)[0].reserved,
                     old(taken)[0].outcome.hasDocument)
      ensures records[old(taken)[0].index].residency == Available
    {
      hide Inv, DependenciesResident, Desire, Evictable, Leaks, Cleared, Freed, Stored;
      var report := taken[0];
      var i := report.index;
      FinishReady(limits, S());
      RecordAt(limits, S(), i);
      var usable := report.outcome.hasDocument && DependenciesResident(manifest.value.graph, records, i);
      Settle(Published(records[i], report.reserved, usable));
      CacheIsStored(limits, old(S()), S(), i, report.reserved, report.outcome.hasDocument);
    }

    method StoreFresh()
      requires Valid() && taken != [] && taken[0].ContentDone? && taken[0].outcome.Prepared?
      requires taken[0].index < |records| && !records[taken[0].index].cached
      modifies this
      ensures Valid() && SameDemand(old(records), records) && SameResidents(old(records), records)
      ensures leaked == old(leaked) + Leaks(old(records), old(taken)[0].index,
                                            old(taken)[0].reserved + old(cachedBytes), limits.maxCachedBytes, 0)
      ensures SettleFrame(old(S()), S())
      ensures Stored(limits, old(S()), S(), old(taken)[0].index, old(taken)[0].reserved,
                     old(taken)[0].outcome.hasDocument)
      ensures records[old(taken)[0].index].residency == Failed ==> NoRoom(old(taken)[0].index, old(taken)[0].reserved)
    {
      hide Inv, DependenciesResident, Desire, Evictable, Leaks, Cleared, Freed, Stored, SettleFrame, SameDemand,
        SameResidents, NoRoom;
      var report := taken[0];
      var i := report.index;
      FinishReady(limits, S());
      RecordAt(limits, S(), i);
      hide *;
      var fits := MakeRoom(i, report.reserved);
      ghost var m := S();
      DependenciesStay(manifest.value.graph, old(records), records, i);
      FinishReady(limits, S());
      KeepPayload(fits);
      SettledAfterRoom(old(S()), m, S());
      SameTwice(old(records), m.records, records);
      RoomIsStored(limits, old(S()), m, S(), i, report.reserved, report.outcome.hasDocument);
    }

    /** Settles the first taken payload, for which room has been made if there could be. */
    method KeepPayload(fits: bool)
      requires Valid() && taken != [] && taken[0].ContentDone? && taken[0].outcome.Prepared?
      requires taken[0].index < |records| && !records[taken[0].index].cached
      requires fits <==> taken[0].reserved + cachedBytes <= limits.maxCachedBytes
      requires !fits ==> NoRoom(taken[0].index, taken[0].reserved)
      modifies this
      ensures Valid() && SettleFrame(old(S()), S()) && leaked == old(leaked)
      ensures SameDemand(old(records), records) && SameResidents(old(records), records)
      ensures manifest.Some? && old(taken)[0].index < |manifest.value.graph|
      ensures var i, report := old(taken)[0].index, old(taken)[0];
              var usable := report.outcome.hasDocument && DependenciesResident(manifest.value.graph, old(records), i);
              records == old(records)[i := if fits then Published(old(records)[i], report.reserved, usable)
                                           else old(records)[i].(cancelFlag := None, residency := Failed)]
      ensures !fits ==> NoRoom(old(taken)[0].index, old(taken)[0].reserved)
    {
      hide Inv, DependenciesResident, Desire;
      var report := taken[0];
      var i := report.index;
      FinishReady(limits, S());
      RecordAt(limits, S(), i);
      if !fits {
        Settle(records[i].(cancelFlag := None, residency := Failed));
      } else {
        var usable := report.outcome.hasDocument && DependenciesResident(manifest.value.graph, records, i);
        Settle(Published(records[i], report.reserved, usable));
      }
    }

    /** Puts an admissible unit into the world, or starts decoding it again. */
    method AdmitUnit(i: nat, b: Budget, world: World) returns (admitted: bool)
      requires Valid() && i < |records|
      modifies this
      ensures Valid() && SameDemand(old(records), records) && ResidentsKept(old(records), records)
      ensures AdmitFrame(old(S()), S(), i)
      ensures AdmitTurn(limits, world, old(S()), i, b, records[i])
      ensures admitted <==> old(records)[i].residency != Resident && records[i].residency == Resident
      ensures inFlight != old(inFlight) ==> CanLaunch(limits, old(S()), i) && S() == Launched(limits, old(S()), i)
      ensures !Admittable(limits, old(S()), i, b) ==> S() == old(S())
    {
      hide Inv, DependenciesResident;
      RecordAt(limits, S(), i);
      var r := records[i];
      var unit := manifest.value.units[i];
      if r.residency != Available || Desire(r) == 0 {
        return false;
      }
      if !DependenciesResident(manifest.value.graph, records, i)
         || b.objects + unit.objectCount > limits.admissionObjects
         || b.bytes + unit.compressedBytes > limits.admissionBytes {
        return false;
      }
      hide SameDemand, ResidentsKept;
      if !r.prepared {
        DecodeAgain(i, world);
        return false;
      }
      admitted := CommitUnit(i, world);
    }

    /** Sends cached bytes through the workers once more, when there is a slot and room for the result. */
    method DecodeAgain(i: nat, world: World)
      requires Valid() && i < |records| && records[i].residency == Available && !records[i].prepared
      modifies this
      ensures Valid() && SameDemand(old(records), records) && ResidentsKept(old(records), records)
      ensures AdmitFrame(old(S()), S(), i)
      ensures manifest.Some? && i < |manifest.value.units|
      ensures if world.decodedRoom(i) && old(inFlight) < limits.maxInFlight
                 && old(reserved) + manifest.value.units[i].compressedBytes <= limits.maxCompletedBytes
              then CanLaunch(limits, old(S()), i) && S() == Launched(limits, old(S()), i)
              else S() == old(S())
    {
      hide Inv;
      RecordAt(limits, S(), i);
      var r := records[i];
      if inFlight < limits.maxInFlight && world.decodedRoom(i)
         && r.encodedBytes <= limits.maxCompletedBytes - Min(reserved, limits.maxCompletedBytes) {
        SubmitCachedContent(i);
      }
    }

    /** Hands a decoded unit to the world; one that is refused fails and loses its cached bytes. */
    method CommitUnit(i: nat, world: World) returns (admitted: bool)
      requires Valid() && i < |records| && records[i].residency == Available && records[i].prepared
      requires manifest.Some? && i < |manifest.value.graph| && DependenciesResident(manifest.value.graph, records, i)
      modifies this
      ensures Valid() && AdmitFrame(old(S()), S(), i) && inFlight == old(inFlight)
      ensures SameDemand(old(records), records) && ResidentsKept(old(records), records)
      ensures admitted <==> world.admission(i) == Committed
      ensures records == old(records)[i := if admitted
                                      then old(records)[i].(root := true, residency := Resident, prepared := false)
                                           else old(records)[i].(cached := false, prepared := false,
                                                                 encodedBytes := 0, residency := Failed)]
    {
      hide Inv, DependenciesResident;
      RecordAt(limits, S(), i);
      var r := records[i];
      if world.admission(i) != Committed {
        cachedBytes := cachedBytes - r.encodedBytes;
        records := records[i := r.(cached := false, prepared := false, encodedBytes := 0, residency := Failed)];
        RecordMoveKeeps(limits, old(S()), i, records[i], S());
        return false;
      }
      records := records[i := r.(root := true, residency := Resident, prepared := false)];
      RecordMoveKeeps(limits, old(S()), i, records[i], S());
      return true;
    }

    predicate HasResidentDependent(i: nat)
      requires manifest.Some? && i < |manifest.value.dependents|
      reads this
    {
      exists d :: d in manifest.value.dependents[i] && d < |records| && records[d].residency in {Resident, Evicting}
    }

    /** Takes an undesired unit out of the world, if nothing Resident stands on it. */
    method EvictUnit(i: nat, objects: nat, world: World) returns (evicted: bool)
      requires Valid() && i < |records|
      modifies this`records
      ensures Valid() && SameDemand(old(records), records) && ResidentsKept(old(records), records)
      ensures Whole(old(S()), old(records)) && OnlyAt(old(records), records, i)
      ensures EvictTurn(limits, world, old(S()), i, objects, records[i])
      ensures evicted <==> old(records)[i].residency == Resident && records[i].residency != Resident
                           && !world.rootLost(i)
    {
      hide Inv, ManifestOk, NoResidentDependent;
      RecordAt(limits, S(), i);
      var r := records[i];
      DependentsMeet(limits, S(), i);
      if r.residency != Resident || Desire(r) != 0 || HasResidentDependent(i)
         || objects + manifest.value.units[i].objectCount > limits.evictionObjects {
        return false;
      }
      NoDependentResident(limits, S(), i);
      var after := if r.prepared then Available else Unavailable;
      if world.rootLost(i) {
        records := records[i := r.(root := false, residency := after)];
        RecordMoveKeeps(limits, old(S()), i, records[i], S());
        return false;
      }
      if world.runtimeChild(i) {
        return false;
      }
      records := records[i := r.(root := false, residency := after)];
      RecordMoveKeeps(limits, old(S()), i, records[i], S());
      return true;
    }

    /** Gives a failed unit another chance. */
    method RetryContent(i: nat) returns (ok: bool)
      requires Valid()
      modifies this
      ensures Valid() && SameDemand(old(records), records) && ResidentsKept(old(records), records)
      ensures manifest == old(manifest) && taken == old(taken)
      ensures ok <==> i < |old(records)| && old(records)[i].residency == Failed
      ensures ok ==> forall j :: 0 <= j < |records| ==> Dropped(records[j])
      ensures ok ==> records[i].residency in {Unavailable, Requested, Acquiring}
                     && (records[i].residency == Requested ==> Blocked(i))
      ensures !ok ==> S() == old(S())
      ensures leaked == old(leaked)
      ensures ok ==> Requests(limits,
                              old(S()).(records := old(records)[i := old(records)[i].(residency := Unavailable)]),
                              S())
    {
      hide Inv, Requests;
      if i >= |records| || records[i].residency != Failed {
        return false;
      }
      RecordAt(limits, S(), i);
      records := records[i := records[i].(residency := Unavailable)];
      RecordMoveKeeps(limits, old(S()), i, records[i], S());
      StartRequests();
      RecordAt(limits, S(), i);
      return true;
    }

    /** Works through the taken batch, report by report; `states` are the states between the reports.
        Lost pending slots never come back; the first report loses exactly its own. */
    method FinishTaken() returns (ghost states: seq<State>)
      requires Valid()
      modifies this
      ensures Valid() && AllSettled(limits, fullyResident, states)
      ensures |states| == |old(taken)| + 1 && states[0] == old(S()) && states[|old(taken)|] == S()
      ensures old(manifest).Some? ==> Steady(old(S()), S())
      ensures leaked >= old(leaked) + LeaksOf(limits, old(S()), old(taken))
      ensures |old(taken)| <= 1 ==> leaked == old(leaked) + LeaksOf(limits, old(S()), old(taken))
      ensures taken == []
    {
      hide Inv, SameDemand, SameResidents, ResidentsKept, Desire, LeaksFor, LeaksOf, Settled, Steady;
      SteadyNow(S());
      states := [S()];
      ghost var n, first := |taken|, LeaksOf(limits, S(), taken);
      for k := 0 to |taken|
        invariant Valid() && |taken| + k == n == |old(taken)|
        invariant |states| == k + 1 && states[0] == old(S()) && states[k] == S()
        invariant forall j: nat :: j < k ==> Settled(limits, fullyResident, states[j], states[j + 1])
        invariant old(manifest).Some? ==> Steady(old(S()), S())
        invariant k == 0 ==> S() == old(S())
        invariant k > 0 ==> leaked >= old(leaked) + first
        invariant k == 1 ==> leaked == old(leaked) + first
      {
        ghost var before := S();
        FinishFirst();
        if old(manifest).Some? {
          SteadySizes(old(S()), before);
          SteadyTwice(old(S()), before, S());
        }
        states := states + [S()];
      }
      NothingLeaksNothing(limits, old(S()));
    }

    /** Settles the first taken report. */
    method FinishFirst()
      requires Valid() && taken != []
      modifies this
      ensures Valid() && |taken| + 1 == |old(taken)| && Settled(limits, fullyResident, old(S()), S())
      ensures old(manifest).Some? ==> Steady(old(S()), S())
      ensures leaked == old(leaked) + LeaksOf(limits, old(S()), old(taken))
    {
      hide Inv, SameDemand, SameResidents, ResidentsKept, Desire, LeaksFor, Settled;
      if taken[0].ManifestDone? {
        ManifestLeaksNothing(limits, S(), taken[0]);
        FinishManifest();
      } else {
        FinishContent();
        SteadyResidents(old(S()), S());
      }
    }

    /** The admission pass, in record order, within its per-tick budgets. */
    method AdmitAll(world: World)
      requires Valid() && manifest.Some?
      modifies this
      ensures Valid() && Steady(old(S()), S()) && taken == old(taken) && leaked == old(leaked)
      ensures Admission(limits, world, old(S()), S())
    {
      hide Inv, SameDemand, ResidentsKept, AdmittedTo, Admission, AdmitTurn, AdmitFrame, Steady;
      SteadyNow(S());
      AdmittingFirst(limits, world, S());
      var b := Budget(0, 0, 0);
      var i: nat := 0;
      while i < |records| && b.units < limits.admissionUnits
        invariant Valid() && Steady(old(S()), S()) && taken == old(taken) && leaked == old(leaked)
        invariant manifest == old(manifest) && manifest.Some? && |records| == |old(records)| == |manifest.value.units|
        invariant i <= |records| && AdmittedTo(limits, world, old(S()), S(), i, b)
        decreases |records| - i
      {
        ghost var before := S();
        var admitted := AdmitUnit(i, b, world);
        AdmitFrameSteady(before, S(), i);
        SteadyTwice(old(S()), before, S());
        AdmittingOn(limits, world, old(S()), before, S(), i, b, admitted);
        if admitted {
          b := Budget(b.units + 1, b.objects + manifest.value.units[i].objectCount,
                      b.bytes + manifest.value.units[i].compressedBytes);
        }
        SteadySizes(before, S());
        i := i + 1;
      }
      AdmittingEnds(limits, world, old(S()), S(), i, b);
    }

    /** The eviction pass, in reverse record order, within its per-tick budgets. */
    method EvictAll(world: World)
      requires Valid() && manifest.Some?
      modifies this`records
      ensures Valid() && Steady(old(S()), S())
      ensures Eviction(limits, world, old(S()), S())
    {
      hide Inv, SameDemand, ResidentsKept, EvictedTo, Eviction, EvictTurn, Steady;
      SteadyNow(S());
      EvictingFirst(limits, world, S());
      var units: nat, objects: nat := 0, 0;
      var i: nat := |records|;
      while i > 0 && units < limits.evictionUnits
        invariant Valid() && Steady(old(S()), S()) && i <= |records| == |old(records)| == |manifest.value.units|
        invariant EvictedTo(limits, world, old(S()), S(), i, units, objects)
        decreases i
      {
        i := i - 1;
        ghost var before := S();
        NoSelfDependency(limits, before, i);
        var evicted := EvictUnit(i, objects, world);
        SteadyRecords(before, S());
        SteadyTwice(old(S()), before, S());
        EvictingOn(limits, world, old(S()), before, S(), i, units, objects, evicted);
        if evicted {
          units := units + 1;
          objects := objects + manifest.value.units[i].objectCount;
        }
      }
      EvictingEnds(limits, world, old(S()), S(), i, units, objects);
    }

    /** One tick: settle reports, request, admit, evict, request again. `p` are the states in between, and each is what
        the one before it, the budgets and the world make of every unit. */
    method Step(world: World) returns (ghost p: Phases)
      requires Valid() && taken == []
      modifies this
      ensures Valid() && taken == []
      ensures Ticked(limits, fullyResident, world, old(S()), p, S())
      ensures old(manifest).Some? ==> Steady(old(S()), S())
      ensures leaked >= old(leaked) + LeaksOf(limits, old(S()), old(completions))
      ensures PendingExact(S()) ==> PendingExact(old(S())) && LeaksOf(limits, old(S()), old(completions)) == 0
      ensures |old(completions)| <= 1 || limits.maxCompletionsPerTick == 1 ==>
                (PendingExact(S()) <==> PendingExact(old(S())) && LeaksOf(limits, old(S()), old(completions)) == 0)
      ensures forall i :: 0 <= i < |records| ==> Dropped(records[i])
      ensures forall i :: 0 <= i < |records| && records[i].residency == Requested ==> Blocked(i)
    {
      hide Inv, SameDemand, SameResidents, ResidentsKept, Desire, LeaksFor, LeaksOf, PendingExact, Steady, AllSettled,
        Admission, Eviction, Requests, PassFrame, Dropped;
      PendingMeans(limits, S());
      BatchTakesSome(limits, S());
      ghost var s0 := S();
      TakeCompletions();
      ghost var s1 := S();
      BatchLeaks(limits, s0, s1);
      ghost var states := FinishTaken();
      ghost var s2 := S();
      if s0.manifest.Some? {
        SteadyTaken(s0, s1, s2);
        SteadySizes(s0, s2);
      }
      StartRequests();
      ghost var s3 := S();
      SteadyPass(s2, s3);
      p := Phases(states, s3, s3, s3);
      if manifest.None? {
        PendingMeans(limits, S());
        return;
      }
      ghost var s4, s5 := PassOn(world);
      p := Phases(states, s3, s4, s5);
      PendingMeans(limits, S());
      SteadyTwice(s2, s3, S());
      if s0.manifest.Some? {
        SteadyTwice(s0, s2, S());
      }
    }

    /** The rest of a tick once there is a manifest: admit, evict, request again. */
    method PassOn(world: World) returns (ghost admitted: State, ghost evicted: State)
      requires Valid() && manifest.Some?
      modifies this
      ensures Valid() && Steady(old(S()), S()) && taken == old(taken) && leaked == old(leaked)
      ensures Admission(limits, world, old(S()), admitted) && Eviction(limits, world, admitted, evicted)
      ensures manifest == old(manifest) && Requests(limits, evicted, S())
      ensures forall i :: 0 <= i < |records| ==> Dropped(records[i])
      ensures forall i :: 0 <= i < |records| && records[i].residency == Requested ==> Blocked(i)
    {
      hide Inv, SameDemand, SameResidents, ResidentsKept, Desire, Admission, Eviction, Requests, PassFrame, Dropped;
      ghost var s3 := S();
      AdmitAll(world);
      admitted := S();
      EvictAll(world);
      evicted := S();
      StartRequests();
      SteadyPass(evicted, S());
      SteadyTwice(admitted, evicted, S());
      SteadyTwice(s3, admitted, S());
    }

    /** Any run of calls, worker reports and ticks, in any order, goes step by step as the events say, and every state
        on the way meets every invariant. */
    method Run(events: seq<Event>) returns (ghost states: seq<State>)
      requires Valid() && taken == []
      requires forall k :: 0 <= k < |events| && events[k].ManifestArrives? && events[k].result.Some? ==>
                 ManifestOk(limits, events[k].result.value)
      modifies this
      ensures Valid() && taken == [] && leaked >= old(leaked)
      ensures |states| == |events| + 1 && states[0] == old(S()) && states[|events|] == S()
      ensures forall k: nat :: k < |events| ==> Follows(limits, fullyResident, events[k], states[k], states[k + 1])
      ensures forall k: nat :: k <= |events| ==> Inv(limits, states[k])
      ensures PendingExact(S()) ==> PendingExact(old(S()))
    {
      hide Inv, ManifestOk, PendingExact, Follows;
      PendingMeans(limits, S());
      states := [S()];
      for k := 0 to |events|
        invariant Valid() && taken == [] && leaked >= old(leaked)
        invariant |states| == k + 1 && states[0] == old(S()) && states[k] == S()
        invariant forall i: nat :: i < k ==> Follows(limits, fullyResident, events[i], states[i], states[i + 1])
        invariant forall i: nat :: i <= k ==> Inv(limits, states[i])
      {
        Apply(events[k]);
        states := states + [S()];
      }
      PendingMeans(limits, S());
    }

    method Apply(event: Event)
      requires Valid() && taken == []
      requires event.ManifestArrives? && event.result.Some? ==> ManifestOk(limits, event.result.value)
      modifies this
      ensures Valid() && taken == [] && leaked >= old(leaked)
      ensures Follows(limits, fullyResident, event, old(S()), S())
    {
      hide Inv, ManifestOk, PendingExact, LeaksOf, Steady, Dropped, Ticked, AskedAt, SameButDemand, SameDemand,
        Requests,
        ResidentsKept, Blocked;
      match event {
        case RequestUnit(i) => if i < |records| { var _ := Request(i); }
        case ReleaseUnit(i) => if i < |records| { var _ := Release(i); }
        case Pin(i) => var _ := PinContent(i);
        case Unpin(i) => var _ := UnpinContent(i);
        case Retry(i) => var _ := RetryContent(i);
        case ContentArrives(j, outcome) =>
          if j < |jobs| && jobs[j].ContentJob? { WorkerFinishesContent(j, outcome); }
        case ManifestArrives(j, result) =>
          if j < |jobs| && jobs[j].ManifestJob? { WorkerFinishesManifest(j, result); }
        case Tick(world) =>
          ghost var p := Step(world);
      }
    }

    /** Even with everything evictable gone, `required` bytes do not fit beside the cache. */
    ghost predicate NoRoom(i: nat, required: nat)
      reads this
    {
      && required + cachedBytes > limits.maxCachedBytes
      && forall j :: 0 <= j < |records| && j != i ==> !Evictable(records[j])
    }

    /** Why a Requested unit is still waiting: no worker slot, or no room for its payload. */
    ghost predicate Blocked(i: nat)
      reads this
    {
      && manifest.Some? && i < |manifest.value.units|
      && (inFlight >= limits.maxInFlight
          || reserved + manifest.value.units[i].compressedBytes > limits.maxCompletedBytes)
    }
  }

  /** Asking more of a unit either leaves demand exact or owes its dependencies one each. */
  lemma AskMore(g: Graph, rs: seq<Record>, i: nat, r: Record)
    requires WellFormed(g) && DemandExact(g, rs) && i < |g|
    requires r.dependencyDemand == rs[i].dependencyDemand && Asked(r) == Asked(rs[i]) + 1
    ensures Desire(rs[i]) == 0 ==> Rising(g, rs[i := r], g[i])
    ensures Desire(rs[i]) != 0 ==> DemandExact(g, rs[i := r])
  {
    if Desire(rs[i]) == 0 {
      TurnOn(g, rs, i, r);
    } else {
      StayOn(g, rs, i, r);
    }
  }

  lemma AskLess(g: Graph, rs: seq<Record>, i: nat, r: Record)
    requires WellFormed(g) && DemandExact(g, rs) && i < |g|
    requires r.dependencyDemand == rs[i].dependencyDemand && Asked(r) + 1 == Asked(rs[i])
    ensures Desire(r) == 0 ==> Falling(g, rs[i := r], g[i])
    ensures Desire(r) != 0 ==> DemandExact(g, rs[i := r])
  {
    if Desire(r) == 0 {
      TurnOff(g, rs, i, r);
    } else {
      StayOn(g, rs, i, r);
    }
  }

  lemma RisingLength(g: Graph, rs: seq<Record>, owed: seq<nat>)
    requires Rising(g, rs, owed) || Falling(g, rs, owed)
    ensures |rs| == |g|
  {}

  lemma NothingOwed(g: Graph, rs: seq<Record>)
    requires Rising(g, rs, []) || Falling(g, rs, [])
    ensures DemandExact(g, rs)
  {}

  /** What every reachable state of the service satisfies, in the terms a caller can observe. */
  lemma EveryStateIsSound(l: Limits, s: State)
    requires Inv(l, s)
    ensures s.inFlight == Total(s.records, IsAcquiring) + (if s.manifestInFlight then 1 else 0) <= l.maxInFlight
    ensures forall i: nat :: Outstanding(s, i) <= 1 && (Outstanding(s, i) == 1 <==> AcquiringAt(s, i))
    ensures s.cachedBytes == Total(s.records, EncodedBytes) <= l.maxCachedBytes
    ensures s.completionBytes == Total(s.completions, PayloadBytes) <= s.reserved
            == ReservedSum(s) <= l.maxCompletedBytes
    ensures Total(s.records, IsRequested) <= s.pending <= l.maxPending
    ensures forall i, v :: 0 <= i < |s.records| && s.records[i].residency == Resident && s.manifest.Some?
                           && i < |s.manifest.value.graph| && v in s.manifest.value.graph[i] ==>
              v < |s.records| && s.records[v].residency == Resident
    ensures forall v :: 0 <= v < |s.records| && s.manifest.Some? && |s.manifest.value.graph| == |s.records| ==>
              (Desire(s.records[v]) != 0 <==> Wanted(s.manifest.value.graph, s.records, v))
  {
    hide ManifestOk, DemandExact, RecordOk, Wanted, Desire;
    QueuedWithinReserved(l, s);
    forall i: nat ensures Outstanding(s, i) <= 1 && (Outstanding(s, i) == 1 <==> AcquiringAt(s, i)) {
      assert Outstanding(s, i) == if AcquiringAt(s, i) then 1 else 0;
    }
    if s.manifest.Some? {
      SoundDemand(l, s);
    }
  }

  lemma SoundDemand(l: Limits, s: State)
    requires Inv(l, s) && s.manifest.Some?
    ensures |s.manifest.value.graph| == |s.records|
    ensures forall v :: 0 <= v < |s.records| ==>
              (Desire(s.records[v]) != 0 <==> Wanted(s.manifest.value.graph, s.records, v))
  {
    hide Reports, OneJobEach, Flight, Bytes, Cache, Pending, Closed, RecordOk;
    ManifestAt(l, s);
    forall v | 0 <= v < |s.records| ensures Desire(s.records[v]) != 0
      <==> Wanted(s.manifest.value.graph, s.records, v) {
      DesiredIffWanted(s.manifest.value.graph, s.records, v);
    }
  }

  /** `pending` is the number of Requested units. */
  ghost predicate PendingExact(s: State) {
    s.pending == Total(s.records, IsRequested)
  }

  lemma BatchTakesSome(l: Limits, s: State)
    requires Inv(l, s)
    ensures l.maxCompletionsPerTick > 0
  {}

  lemma PendingMeans(l: Limits, s: State)
    requires Inv(l, s)
    ensures PendingExact(s) <==> s.leaked == 0
  {
    hide Records, Reports, OneJobEach, Closed;
  }

  const LEAK_LIMITS: Limits := Limits(1, 1, 10, 10, 1, 1, 1, 10, 1, 1, 10)
  const LEAK_MANIFEST: Manifest := Manifest([Unit(10, 1, false), Unit(10, 1, false)], [[], []], [[], []])

  const BUSY: Record := Record(Acquiring, 1, 0, 0, Some(false), false, false, 0, false)
  const RELEASED: Record := Record(Requested, 0, 0, 0, None, true, false, 10, false)

  /** A sound state between ticks: unit 0's payload has arrived, and the released unit 1 is still Requested. */
  ghost function BeforeLeak(): State {
    State(Some(LEAK_MANIFEST), [BUSY, RELEASED], [], [], [ContentDone(0, 10, Prepared(true))], 10, 1, 10, 1, 10,
          false, 0)
  }

  /** There the count is exact, and settling the payload must evict the Requested unit. */
  lemma PendingLeaks()
    ensures Inv(LEAK_LIMITS, BeforeLeak()) && PendingExact(BeforeLeak())
    ensures LeaksOf(LEAK_LIMITS, BeforeLeak(), BeforeLeak().completions) == 1
  {
    hide *;
    LeakSound(BeforeLeak());
    LeakShape(BeforeLeak());
    PendingMeans(LEAK_LIMITS, BeforeLeak());
    LeakLoses(LEAK_LIMITS, BeforeLeak(), BUSY, RELEASED);
  }

  lemma LeakSound(s: State)
    requires s == BeforeLeak()
    ensures Inv(LEAK_LIMITS, s)
  {
    LeakRecords(s);
    LeakReports(s);
    LeakJobs(s);
    LeakLedgers(s);
    hide Records, Reports, OneJobEach, Closed, Flight, Bytes, Cache, Pending, BeforeLeak;
  }

  lemma LeakShape(s: State)
    requires s == BeforeLeak()
    ensures s.records == [BUSY, RELEASED] && s.completions == [ContentDone(0, 10, Prepared(true))]
    ensures s.cachedBytes == 10 && s.leaked == 0 && LEAK_LIMITS.maxCachedBytes == 10
    ensures Evictable(RELEASED) && RELEASED.residency == Requested
    ensures Desire(BUSY) != 0 && BUSY.cancelFlag == Some(false) && !BUSY.cached
  {}

  lemma LeakLoses(l: Limits, s: State, a: Record, b: Record)
    requires s.records == [a, b] && s.completions == [ContentDone(0, 10, Prepared(true))]
    requires s.cachedBytes == 10 && l.maxCachedBytes == 10 && Evictable(b) && b.residency == Requested
    requires Desire(a) != 0 && a.cancelFlag == Some(false) && !a.cached
    ensures LeaksOf(l, s, s.completions) == 1
  {
    hide LeaksFor, Evictable, Desire;
    LeaksBesideFirst(l, s, a, b, s.completions[0]);
  }

  /** One tick from there, whatever the world answers, leaves a pending slot that no Requested unit holds. */
  method TickLeaks(service: ContentAvailabilityService, world: World)
    requires service.limits == LEAK_LIMITS && service.S() == BeforeLeak()
    modifies service
    ensures service.Valid() && service.pending != Total(service.records, IsRequested)
  {
    PendingLeaks();
    hide Inv, LeaksOf, Steady, Dropped, Ticked;
    ghost var _ := service.Step(world);
  }

  lemma LeakManifest()
    ensures ManifestOk(LEAK_LIMITS, LEAK_MANIFEST)
  {
    var g := LEAK_MANIFEST.graph;
    assert Ranked(g, [0, 0]);
    RankedIsAcyclic(g, [0, 0]);
  }

  lemma LeakDemand(g: Graph, rs: seq<Record>)
    requires g == [[], []] && |rs| == 2 && rs[0].dependencyDemand == rs[1].dependencyDemand == 0
    ensures DemandExact(g, rs)
  {
    forall v | 0 <= v < |g| ensures rs[v].dependencyDemand == |Listers(g, rs, v)| {
      assert Listers(g, rs, v) == {};
    }
  }

  lemma LeakRecords(s: State)
    requires s == BeforeLeak()
    ensures Records(LEAK_LIMITS, s)
  {
    hide ManifestOk, DemandExact;
    LeakManifest();
    LeakDemand(LEAK_MANIFEST.graph, s.records);
    assert s.records[0] == BUSY && s.records[1] == RELEASED;
  }

  lemma LeakReports(s: State)
    requires s == BeforeLeak()
    ensures Reports(LEAK_LIMITS, s) && Closed(s)
  {
    hide ManifestOk;
    assert s.records[0] == BUSY && s.records[1] == RELEASED;
    assert UnitBytes(s, 0, 10);
  }

  lemma LeakJobs(s: State)
    requires s == BeforeLeak()
    ensures OneJobEach(s)
  {
    forall i: nat ensures Outstanding(s, i) == if AcquiringAt(s, i) then 1 else 0 {
      TotalPair(s.completions[0], s.completions[0], DoneFor(i));
      assert s.records[0] == BUSY && s.records[1] == RELEASED;
    }
  }

  lemma LeakLedgers(s: State)
    requires s == BeforeLeak()
    ensures Flight(LEAK_LIMITS, s) && Bytes(LEAK_LIMITS, s) && Cache(LEAK_LIMITS, s) && Pending(LEAK_LIMITS, s)
  {
    TotalPair(BUSY, RELEASED, IsAcquiring);
    TotalPair(BUSY, RELEASED, IsRequested);
    TotalPair(BUSY, RELEASED, EncodedBytes);
    TotalPair(s.completions[0], s.completions[0], DoneManifest);
    TotalPair(s.completions[0], s.completions[0], DoneBytes);
    TotalPair(s.completions[0], s.completions[0], PayloadBytes);
  }
}
