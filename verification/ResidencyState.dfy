/** The state of the content residency engine, its invariants, and the single moves that keep them.
    A `State` is a snapshot taken between two moves; `taken` is the batch a Step is working through. */
module ResidencyState {
  import opened DependencyGraph
  import opened Options
  import opened DependencyDemand
  import opened Totals

  datatype Limits = Limits(
    maxInFlight: nat,
    maxPending: nat,
    maxCompletedBytes: nat,
    maxCachedBytes: nat,
    maxCompletionsPerTick: nat,
    admissionUnits: nat,
    admissionObjects: nat,
    admissionBytes: nat,
    evictionUnits: nat,
    evictionObjects: nat,
    maxPayloadBytes: nat
  )

  predicate LimitsOk(l: Limits) {
    && l.maxInFlight > 0 && l.maxPending > 0 && l.maxCompletionsPerTick > 0
    && l.maxPayloadBytes <= l.maxCompletedBytes && l.maxPayloadBytes <= l.maxCachedBytes
  }

  /** Parsing refuses a manifest whose compressed and uncompressed sizes differ, so one size stands for both. */
  datatype Unit = Unit(compressedBytes: nat, objectCount: nat, atBootstrap: bool)

  datatype Manifest = Manifest(units: seq<Unit>, graph: Graph, dependents: seq<seq<nat>>)

  /** What an accepted and prepared manifest satisfies. */
  ghost predicate ManifestOk(l: Limits, m: Manifest) {
    && |m.units| == |m.graph| == |m.dependents| <= MAX_COUNT
    && WellFormed(m.graph) && Acyclic(m.graph)
    && (forall i :: 0 <= i < |m.units| ==> 0 < m.units[i].compressedBytes <= l.maxPayloadBytes)
    && (forall d, i :: 0 <= d < |m.graph| && 0 <= i < |m.graph| ==> (i in m.dependents[d] <==> d in m.graph[i]))
    && (forall d, i :: 0 <= d < |m.graph| && i in m.dependents[d] ==> i < |m.graph|)
  }

  /** Work handed to the worker pool. */
  datatype Job = ManifestJob | ContentJob(index: nat, bytes: nat)

  /** What a worker reports for content: an error, or verified bytes with or without a decoded document. */
  datatype Outcome = Rejected | Prepared(hasDocument: bool)

  datatype Completion =
    | ManifestDone(result: Option<Manifest>)
    | ContentDone(index: nat, reserved: nat, outcome: Outcome)

  datatype State = State(
    manifest: Option<Manifest>,
    records: seq<Record>,
    jobs: seq<Job>,
    taken: seq<Completion>,
    completions: seq<Completion>,
    completionBytes: nat,
    inFlight: nat,
    reserved: nat,
    pending: nat,
    cachedBytes: nat,
    manifestInFlight: bool,
    leaked: nat
  )

  // ---- Weights

  function IsAcquiring(r: Record): nat { if r.residency == Acquiring then 1 else 0 }
  function IsRequested(r: Record): nat { if r.residency == Requested then 1 else 0 }
  function EncodedBytes(r: Record): nat { r.encodedBytes }
  function JobFor(i: nat): Job -> nat { (j: Job) => if j.ContentJob? && j.index == i then 1 else 0 }
  function DoneFor(i: nat): Completion -> nat { (c: Completion) => if c.ContentDone? && c.index == i then 1 else 0 }
  function JobManifest(j: Job): nat { if j.ManifestJob? then 1 else 0 }
  function DoneManifest(c: Completion): nat { if c.ManifestDone? then 1 else 0 }
  function JobBytes(j: Job): nat { if j.ContentJob? then j.bytes else 0 }
  function DoneBytes(c: Completion): nat { if c.ContentDone? then c.reserved else 0 }
  function PayloadBytes(c: Completion): nat { if c.ContentDone? && c.outcome.Prepared? then c.reserved else 0 }

  // ---- Invariants

  ghost function Outstanding(s: State, i: nat): nat {
    Total(s.jobs, JobFor(i)) + Total(s.taken, DoneFor(i)) + Total(s.completions, DoneFor(i))
  }

  ghost predicate AcquiringAt(s: State, i: nat) {
    i < |s.records| && s.records[i].residency == Acquiring
  }

  /** Exactly the Acquiring units have a job or report outstanding, and each has one. */
  ghost predicate OneJobEach(s: State) {
    forall i: nat :: Outstanding(s, i) == if AcquiringAt(s, i) then 1 else 0
  }

  ghost function ManifestReports(s: State): nat {
    Total(s.jobs, JobManifest) + Total(s.taken, DoneManifest) + Total(s.completions, DoneManifest)
  }

  ghost predicate Flight(l: Limits, s: State) {
    && ManifestReports(s) == (if s.manifestInFlight then 1 else 0)
    && (s.manifestInFlight ==> s.manifest.None?)
    && s.inFlight == Total(s.records, IsAcquiring) + (if s.manifestInFlight then 1 else 0)
    && s.inFlight <= l.maxInFlight
  }

  ghost function ReservedSum(s: State): nat {
    Total(s.jobs, JobBytes) + Total(s.taken, DoneBytes) + Total(s.completions, DoneBytes)
  }

  ghost predicate UnitBytes(s: State, index: nat, bytes: nat) {
    s.manifest.Some? && index < |s.manifest.value.units| && bytes == s.manifest.value.units[index].compressedBytes
  }

  ghost predicate JobOk(s: State, j: Job) {
    j.ContentJob? ==> UnitBytes(s, j.index, j.bytes)
  }

  ghost predicate DoneOk(l: Limits, s: State, c: Completion) {
    match c
    case ManifestDone(result) => result.Some? ==> ManifestOk(l, result.value)
    case ContentDone(index, reserved, _) => UnitBytes(s, index, reserved)
  }

  ghost predicate Reports(l: Limits, s: State) {
    && (forall k :: 0 <= k < |s.jobs| ==> JobOk(s, s.jobs[k]))
    && (forall k :: 0 <= k < |s.taken| ==> DoneOk(l, s, s.taken[k]))
    && (forall k :: 0 <= k < |s.completions| ==> DoneOk(l, s, s.completions[k]))
  }

  /** Reserved bytes are exactly what jobs and unprocessed reports hold; queued payloads fit inside. */
  ghost predicate Bytes(l: Limits, s: State) {
    && s.reserved == ReservedSum(s) <= l.maxCompletedBytes
    && s.completionBytes == Total(s.completions, PayloadBytes)
  }

  ghost predicate Cache(l: Limits, s: State) {
    s.cachedBytes == Total(s.records, EncodedBytes) <= l.maxCachedBytes
  }

  /** `leaked` counts cache evictions that hit a Requested unit and left `pending` behind. */
  ghost predicate Pending(l: Limits, s: State) {
    s.pending == Total(s.records, IsRequested) + s.leaked <= l.maxPending
  }

  ghost predicate RecordOk(u: Unit, r: Record) {
    && (r.residency == Resident <==> r.root)
    && (r.prepared ==> r.residency == Available)
    && (r.residency == Available ==> r.cached)
    && (r.cancelFlag.Some? <==> r.residency == Acquiring)
    && r.residency != Admitting && r.residency != Evicting
    && r.encodedBytes == (if r.cached then u.compressedBytes else 0)
  }

  ghost predicate Records(l: Limits, s: State) {
    match s.manifest
    case None => s.records == []
    case Some(m) =>
      && ManifestOk(l, m)
      && DemandExact(m.graph, s.records)
      && forall i :: 0 <= i < |s.records| ==> RecordOk(m.units[i], s.records[i])
  }

  predicate DependenciesResident(g: Graph, rs: seq<Record>, i: nat)
    requires i < |g|
  {
    forall v :: v in g[i] ==> v < |rs| && rs[v].residency == Resident
  }

  /** Whatever is Resident stands on Resident dependencies. */
  ghost predicate Closed(s: State) {
    s.manifest.Some? && |s.manifest.value.graph| == |s.records| ==>
      forall i :: 0 <= i < |s.records| && s.records[i].residency == Resident ==>
        DependenciesResident(s.manifest.value.graph, s.records, i)
  }

  ghost predicate Inv(l: Limits, s: State) {
    && LimitsOk(l) && Records(l, s) && Reports(l, s)
    && OneJobEach(s) && Flight(l, s) && Bytes(l, s) && Cache(l, s) && Pending(l, s) && Closed(s)
  }

  // ---- What the invariants give a caller

  lemma QueuedWithinReserved(l: Limits, s: State)
    requires Bytes(l, s)
    ensures s.completionBytes <= Total(s.completions, DoneBytes) <= s.reserved <= l.maxCompletedBytes
  {
    PayloadAtMostReserved(s.completions);
  }

  lemma {:induction false} PayloadAtMostReserved(cs: seq<Completion>)
    ensures Total(cs, PayloadBytes) <= Total(cs, DoneBytes)
  {
    if cs != [] {
      PayloadAtMostReserved(cs[1..]);
    }
  }

  /** What the invariants say about one record and its share of the ledgers. */
  lemma RecordAt(l: Limits, s: State, i: nat)
    requires Inv(l, s) && i < |s.records|
    ensures s.manifest.Some? && |s.records| == |s.manifest.value.units| == |s.manifest.value.graph|
    ensures |s.manifest.value.dependents| == |s.records|
    ensures RecordOk(s.manifest.value.units[i], s.records[i])
    ensures IsRequested(s.records[i]) + s.leaked <= s.pending
    ensures EncodedBytes(s.records[i]) <= s.cachedBytes
    ensures s.pending <= l.maxPending && s.cachedBytes <= l.maxCachedBytes && s.reserved <= l.maxCompletedBytes
  {
    hide RecordOk, Closed, OneJobEach, Reports;
    TotalMember(s.records, i, IsRequested);
    TotalMember(s.records, i, EncodedBytes);
  }

  lemma ManifestAt(l: Limits, s: State)
    requires Inv(l, s) && s.manifest.Some?
    ensures ManifestOk(l, s.manifest.value) && DemandExact(s.manifest.value.graph, s.records)
    ensures |s.records| == |s.manifest.value.units|
  {}

  lemma NoSelfDependency(l: Limits, s: State, i: nat)
    requires Inv(l, s) && s.manifest.Some? && i < |s.records|
    ensures |s.manifest.value.graph| == |s.records| && i !in s.manifest.value.graph[i]
  {
    ManifestAt(l, s);
    hide Inv, Acyclic;
    if i in s.manifest.value.graph[i] {
      LoopIsCycle(s.manifest.value.graph, i);
    }
  }

  /** Before the manifest request returns: one job, nothing else. */
  ghost function Initial(): State {
    State(None, [], [ManifestJob], [], [], 0, 1, 0, 0, 0, true, 0)
  }

  lemma InitialOk(l: Limits)
    requires LimitsOk(l)
    ensures Inv(l, Initial())
  {
    var s := Initial();
    forall i: nat ensures Outstanding(s, i) == if AcquiringAt(s, i) then 1 else 0 {}
    assert Total(s.jobs, JobManifest) == 1 && Total(s.jobs, JobBytes) == 0;
  }

  // ---- Moves

  /** A change to one record that neither starts nor ends a job, with its ledger entries. */
  ghost predicate RecordMove(l: Limits, s: State, i: nat, r: Record, s': State) {
    && s.manifest.Some? && i < |s.records| && i < |s.manifest.value.graph|
    && s' == s.(records := s.records[i := r], pending := s'.pending, cachedBytes := s'.cachedBytes, leaked := s'.leaked)
    && (r.residency == Acquiring <==> s.records[i].residency == Acquiring)
    && r.directDemand == s.records[i].directDemand && r.dependencyDemand == s.records[i].dependencyDemand
    && r.pins == s.records[i].pins
    && i < |s.manifest.value.units| && RecordOk(s.manifest.value.units[i], r)
    && s'.pending - s'.leaked == s.pending - s.leaked + IsRequested(r) - IsRequested(s.records[i])
    && s'.pending <= l.maxPending
    && s'.cachedBytes == s.cachedBytes + EncodedBytes(r) - EncodedBytes(s.records[i]) <= l.maxCachedBytes
    && (r.residency == Resident ==>
          s.records[i].residency == Resident || DependenciesResident(s.manifest.value.graph, s.records, i))
    && (s.records[i].residency == Resident ==> r.residency == Resident || NoResidentDependent(s, i))
  }

  ghost predicate NoResidentDependent(s: State, i: nat) {
    && s.manifest.Some? && |s.records| == |s.manifest.value.graph|
    && forall u :: 0 <= u < |s.records| && i in s.manifest.value.graph[u] ==> s.records[u].residency != Resident
  }

  lemma OneJobEachSame(s: State, s': State)
    requires OneJobEach(s) && s'.jobs == s.jobs && s'.taken == s.taken && s'.completions == s.completions
    requires |s'.records| == |s.records|
    requires forall i :: 0 <= i < |s.records| ==>
             (s.records[i].residency == Acquiring <==> s'.records[i].residency == Acquiring)
    ensures OneJobEach(s')
  {
    forall i: nat ensures Outstanding(s', i) == if AcquiringAt(s', i) then 1 else 0 {
      assert Outstanding(s, i) == if AcquiringAt(s, i) then 1 else 0;
    }
  }

  lemma ReportsSame(l: Limits, s: State, s': State)
    requires Reports(l, s) && s'.manifest == s.manifest
    requires s'.jobs == s.jobs && s'.taken == s.taken && s'.completions == s.completions
    ensures Reports(l, s')
  {
    forall k | 0 <= k < |s.jobs| ensures JobOk(s', s.jobs[k]) { assert JobOk(s, s.jobs[k]); }
    forall k | 0 <= k < |s.taken| ensures DoneOk(l, s', s.taken[k]) { assert DoneOk(l, s, s.taken[k]); }
    forall k | 0 <= k < |s.completions| ensures DoneOk(l, s', s.completions[k]) {
      assert DoneOk(l, s, s.completions[k]);
    }
  }

  lemma RecordMoveClosed(l: Limits, s: State, i: nat, r: Record, s': State)
    requires Records(l, s) && Closed(s) && RecordMove(l, s, i, r, s')
    ensures Closed(s')
  {
    var g := s.manifest.value.graph;
    forall u | 0 <= u < |s'.records| && s'.records[u].residency == Resident
      ensures DependenciesResident(g, s'.records, u)
    {
      assert DependenciesResident(g, s.records, u);
    }
  }

  lemma RecordMoveRecords(l: Limits, s: State, i: nat, r: Record, s': State)
    requires Records(l, s) && RecordMove(l, s, i, r, s')
    ensures Records(l, s')
  {
    StayOn(s.manifest.value.graph, s.records, i, r);
  }

  lemma RecordMoveKeeps(l: Limits, s: State, i: nat, r: Record, s': State)
    requires Inv(l, s) && RecordMove(l, s, i, r, s')
    ensures Inv(l, s')
  {
    hide Records, Reports, OneJobEach, Closed, RecordOk, DependenciesResident, NoResidentDependent;
    RecordMoveRecords(l, s, i, r, s');
    RecordMoveClosed(l, s, i, r, s');
    OneJobEachSame(s, s');
    ReportsSame(l, s, s');
    TotalUpdate(s.records, i, r, IsAcquiring);
    TotalUpdate(s.records, i, r, IsRequested);
    TotalUpdate(s.records, i, r, EncodedBytes);
  }

  /** A unit goes to a worker: from Requested, or from Available when its document must be decoded again. */
  ghost predicate CanLaunch(l: Limits, s: State, i: nat) {
    && s.manifest.Some? && i < |s.records| && i < |s.manifest.value.units|
    && (s.records[i].residency == Requested || (s.records[i].residency == Available && !s.records[i].prepared))
    && s.inFlight < l.maxInFlight
    && s.reserved + s.manifest.value.units[i].compressedBytes <= l.maxCompletedBytes
    && IsRequested(s.records[i]) <= s.pending
  }

  ghost function Launched(l: Limits, s: State, i: nat): State
    requires CanLaunch(l, s, i)
  {
    var bytes := s.manifest.value.units[i].compressedBytes;
    s.(records := s.records[i := s.records[i].(residency := Acquiring, cancelFlag := Some(false))],
       jobs := s.jobs + [ContentJob(i, bytes)],
       inFlight := s.inFlight + 1,
       reserved := s.reserved + bytes,
       pending := s.pending - IsRequested(s.records[i]))
  }

  lemma LaunchJobs(l: Limits, s: State, i: nat)
    requires OneJobEach(s) && CanLaunch(l, s, i)
    ensures OneJobEach(Launched(l, s, i))
  {
    var s' := Launched(l, s, i);
    var job := s'.jobs[|s.jobs|];
    forall k: nat ensures Outstanding(s', k) == if AcquiringAt(s', k) then 1 else 0 {
      assert Outstanding(s, k) == if AcquiringAt(s, k) then 1 else 0;
      TotalAppend(s.jobs, job, JobFor(k));
    }
  }

  lemma LaunchRecords(l: Limits, s: State, i: nat)
    requires Records(l, s) && Closed(s) && Reports(l, s) && CanLaunch(l, s, i)
    ensures Records(l, Launched(l, s, i)) && Closed(Launched(l, s, i)) && Reports(l, Launched(l, s, i))
  {
    var s' := Launched(l, s, i);
    var g := s.manifest.value.graph;
    StayOn(g, s.records, i, s'.records[i]);
    forall u | 0 <= u < |s'.records| && s'.records[u].residency == Resident
      ensures DependenciesResident(g, s'.records, u)
    {
      assert DependenciesResident(g, s.records, u);
    }
    forall k | 0 <= k < |s'.jobs| ensures JobOk(s', s'.jobs[k]) {
      assert k < |s.jobs| ==> JobOk(s, s.jobs[k]);
    }
    forall k | 0 <= k < |s.taken| ensures DoneOk(l, s', s.taken[k]) { assert DoneOk(l, s, s.taken[k]); }
    forall k | 0 <= k < |s.completions| ensures DoneOk(l, s', s.completions[k]) {
      assert DoneOk(l, s, s.completions[k]);
    }
  }

  lemma LaunchKeeps(l: Limits, s: State, i: nat)
    requires Inv(l, s) && CanLaunch(l, s, i)
    ensures Inv(l, Launched(l, s, i))
  {
    hide Records, Reports, OneJobEach, Closed;
    LaunchJobs(l, s, i);
    LaunchRecords(l, s, i);
    var s' := Launched(l, s, i);
    var job := s'.jobs[|s.jobs|];
    TotalUpdate(s.records, i, s'.records[i], IsAcquiring);
    TotalUpdate(s.records, i, s'.records[i], IsRequested);
    TotalUpdate(s.records, i, s'.records[i], EncodedBytes);
    TotalAppend(s.jobs, job, JobManifest);
    TotalAppend(s.jobs, job, JobBytes);
  }

  /** The first taken report is settled: its job ends and its unit leaves Acquiring as `r`. */
  ghost predicate FinishMove(l: Limits, s: State, r: Record, s': State) {
    && s.manifest.Some? && s.taken != [] && s.taken[0].ContentDone?
    && var i := s.taken[0].index;
    && i < |s.records| && i < |s.manifest.value.units|
    && s' == s.(records := s.records[i := r], taken := s.taken[1..],
                inFlight := s'.inFlight, reserved := s'.reserved, cachedBytes := s'.cachedBytes)
    && s'.inFlight == s.inFlight - 1 && s'.reserved == s.reserved - s.taken[0].reserved
    && r.directDemand == s.records[i].directDemand && r.dependencyDemand == s.records[i].dependencyDemand
    && r.pins == s.records[i].pins
    && r.residency in {Unavailable, Failed, Available}
    && RecordOk(s.manifest.value.units[i], r)
    && s'.cachedBytes == s.cachedBytes + EncodedBytes(r) - EncodedBytes(s.records[i]) <= l.maxCachedBytes
  }

  lemma FinishJobs(l: Limits, s: State, r: Record, s': State)
    requires OneJobEach(s) && FinishMove(l, s, r, s')
    ensures OneJobEach(s') && s.records[s.taken[0].index].residency == Acquiring
  {
    assert s.taken == [s.taken[0]] + s.taken[1..];
    var i := s.taken[0].index;
    assert Outstanding(s, i) == if AcquiringAt(s, i) then 1 else 0;
    forall k: nat ensures Outstanding(s', k) == if AcquiringAt(s', k) then 1 else 0 {
      assert Outstanding(s, k) == if AcquiringAt(s, k) then 1 else 0;
    }
  }

  lemma FinishRecords(l: Limits, s: State, r: Record, s': State)
    requires Records(l, s) && Closed(s) && Reports(l, s) && FinishMove(l, s, r, s')
    requires s.records[s.taken[0].index].residency == Acquiring
    ensures Records(l, s') && Closed(s') && Reports(l, s')
  {
    var i := s.taken[0].index;
    var g := s.manifest.value.graph;
    StayOn(g, s.records, i, r);
    forall u | 0 <= u < |s'.records| && s'.records[u].residency == Resident
      ensures DependenciesResident(g, s'.records, u)
    {
      assert DependenciesResident(g, s.records, u);
    }
    forall k | 0 <= k < |s.jobs| ensures JobOk(s', s.jobs[k]) { assert JobOk(s, s.jobs[k]); }
    forall k | 0 <= k < |s'.taken| ensures DoneOk(l, s', s'.taken[k]) { assert DoneOk(l, s, s.taken[k + 1]); }
    forall k | 0 <= k < |s.completions| ensures DoneOk(l, s', s.completions[k]) {
      assert DoneOk(l, s, s.completions[k]);
    }
  }

  lemma FinishKeeps(l: Limits, s: State, r: Record, s': State)
    requires Inv(l, s) && FinishMove(l, s, r, s')
    ensures Inv(l, s')
  {
    hide Records, Reports, OneJobEach, Closed, RecordOk;
    FinishJobs(l, s, r, s');
    FinishRecords(l, s, r, s');
    TotalUpdate(s.records, s.taken[0].index, r, IsAcquiring);
    TotalUpdate(s.records, s.taken[0].index, r, IsRequested);
    TotalUpdate(s.records, s.taken[0].index, r, EncodedBytes);
  }

  /** What the invariants say about the report a Step is about to settle. */
  lemma FinishReady(l: Limits, s: State)
    requires Inv(l, s) && s.taken != [] && s.taken[0].ContentDone?
    ensures s.manifest.Some? && s.taken[0].index < |s.records| == |s.manifest.value.units|
    ensures s.records[s.taken[0].index].residency == Acquiring
    ensures s.taken[0].reserved == s.manifest.value.units[s.taken[0].index].compressedBytes
    ensures s.inFlight > 0 && s.taken[0].reserved <= s.reserved
  {
    hide RecordOk, Closed;
    var i := s.taken[0].index;
    assert DoneOk(l, s, s.taken[0]);
    assert Outstanding(s, i) == if AcquiringAt(s, i) then 1 else 0;
    TotalMember(s.taken, 0, DoneFor(i));
    TotalMember(s.taken, 0, DoneBytes);
    TotalMember(s.records, i, IsAcquiring);
  }

  /** A worker finishes job `k` and queues its report. */
  ghost predicate WorkerMove(l: Limits, s: State, k: nat, c: Completion, s': State) {
    && k < |s.jobs|
    && s' == s.(jobs := s.jobs[..k] + s.jobs[k + 1..], completions := s.completions + [c],
                completionBytes := s.completionBytes + PayloadBytes(c))
    && match s.jobs[k]
       case ManifestJob => c.ManifestDone? && (c.result.Some? ==> ManifestOk(l, c.result.value))
       case ContentJob(i, b) => c.ContentDone? && c.index == i && c.reserved == b
  }

  lemma WorkerKeeps(l: Limits, s: State, k: nat, c: Completion, s': State)
    requires Inv(l, s) && WorkerMove(l, s, k, c, s')
    ensures Inv(l, s')
  {
    hide Records, Reports, OneJobEach, Closed, ManifestOk;
    WorkerReports(l, s, k, c, s');
    WorkerJobs(l, s, k, c, s');
    TotalRemove(s.jobs, k, JobManifest);
    TotalRemove(s.jobs, k, JobBytes);
    TotalAppend(s.completions, c, DoneManifest);
    TotalAppend(s.completions, c, DoneBytes);
    TotalAppend(s.completions, c, PayloadBytes);
  }

  lemma WorkerJobs(l: Limits, s: State, k: nat, c: Completion, s': State)
    requires OneJobEach(s) && WorkerMove(l, s, k, c, s')
    ensures OneJobEach(s')
  {
    hide ManifestOk;
    forall i: nat ensures Outstanding(s', i) == if AcquiringAt(s', i) then 1 else 0 {
      assert Outstanding(s, i) == if AcquiringAt(s, i) then 1 else 0;
      TotalRemove(s.jobs, k, JobFor(i));
      TotalAppend(s.completions, c, DoneFor(i));
    }
  }

  lemma WorkerReports(l: Limits, s: State, k: nat, c: Completion, s': State)
    requires Records(l, s) && Closed(s) && Reports(l, s) && WorkerMove(l, s, k, c, s')
    ensures Records(l, s') && Closed(s') && Reports(l, s')
  {
    hide ManifestOk, RecordOk, DemandExact, DependenciesResident;
    assert JobOk(s, s.jobs[k]);
    forall j | 0 <= j < |s'.jobs| ensures JobOk(s', s'.jobs[j]) {
      assert JobOk(s, s.jobs[if j < k then j else j + 1]);
    }
    forall j | 0 <= j < |s.taken| ensures DoneOk(l, s', s.taken[j]) { assert DoneOk(l, s, s.taken[j]); }
    forall j | 0 <= j < |s'.completions| ensures DoneOk(l, s', s'.completions[j]) {
      assert j < |s.completions| ==> DoneOk(l, s, s.completions[j]);
    }
  }

  /** A Step takes the oldest `n` reports off the queue. */
  ghost predicate TakeMove(s: State, n: nat, s': State) {
    && s.taken == [] && n <= |s.completions|
    && s' == s.(taken := s.completions[..n], completions := s.completions[n..], completionBytes := s'.completionBytes)
    && s'.completionBytes + Total(s.completions[..n], PayloadBytes) == s.completionBytes
  }

  lemma TakeKeeps(l: Limits, s: State, n: nat, s': State)
    requires Inv(l, s) && TakeMove(s, n, s')
    ensures Inv(l, s')
  {
    hide Records, Closed, ManifestOk;
    TakeRecords(l, s, n, s');
    assert s.completions == s.completions[..n] + s.completions[n..];
    TotalConcat(s.completions[..n], s.completions[n..], DoneManifest);
    TotalConcat(s.completions[..n], s.completions[n..], DoneBytes);
    TotalConcat(s.completions[..n], s.completions[n..], PayloadBytes);
    forall i: nat ensures Outstanding(s', i) == if AcquiringAt(s', i) then 1 else 0 {
      assert Outstanding(s, i) == if AcquiringAt(s, i) then 1 else 0;
      TotalConcat(s.completions[..n], s.completions[n..], DoneFor(i));
    }
  }

  lemma TakeRecords(l: Limits, s: State, n: nat, s': State)
    requires Records(l, s) && Closed(s) && Reports(l, s) && TakeMove(s, n, s')
    ensures Records(l, s') && Closed(s') && Reports(l, s')
  {
    hide ManifestOk, RecordOk, DemandExact, DependenciesResident;
    forall j | 0 <= j < |s.jobs| ensures JobOk(s', s.jobs[j]) { assert JobOk(s, s.jobs[j]); }
    forall j | 0 <= j < |s'.taken| ensures DoneOk(l, s', s'.taken[j]) { assert DoneOk(l, s, s.completions[j]); }
    forall j | 0 <= j < |s'.completions| ensures DoneOk(l, s', s'.completions[j]) {
      assert DoneOk(l, s, s.completions[n + j]);
    }
  }

  const BLANK: Record := Record(Unavailable, 0, 0, 0, None, false, false, 0, false)

  /** The manifest report is settled; an accepted manifest brings blank records. */
  ghost predicate LoadMove(s: State, s': State) {
    && s.taken != [] && s.taken[0].ManifestDone?
    && s' == s.(taken := s.taken[1..], inFlight := s'.inFlight, manifestInFlight := false,
                manifest := s'.manifest, records := s'.records)
    && s'.inFlight == s.inFlight - 1
    && s'.manifest == (if s.taken[0].result.Some? then s.taken[0].result else s.manifest)
    && s'.records == (if s.taken[0].result.Some? then seq(|s.taken[0].result.value.units|, _ => BLANK) else s.records)
  }

  lemma LoadReady(l: Limits, s: State)
    requires Inv(l, s) && s.taken != [] && s.taken[0].ManifestDone?
    ensures s.manifestInFlight && s.manifest.None? && s.records == [] && s.inFlight > 0
    ensures s.taken[0].result.Some? ==> ManifestOk(l, s.taken[0].result.value)
  {
    hide ManifestOk;
    TotalMember(s.taken, 0, DoneManifest);
    assert DoneOk(l, s, s.taken[0]);
  }

  lemma BlankDemand(g: Graph, rs: seq<Record>)
    requires |rs| == |g| && forall i :: 0 <= i < |rs| ==> rs[i] == BLANK
    ensures DemandExact(g, rs)
  {
    forall v | 0 <= v < |g| ensures rs[v].dependencyDemand == |Listers(g, rs, v)| {
      assert Listers(g, rs, v) == {};
    }
  }

  lemma NoContentBeforeManifest(l: Limits, s: State)
    requires Reports(l, s) && s.manifest.None?
    ensures forall k :: 0 <= k < |s.jobs| ==> s.jobs[k].ManifestJob?
    ensures forall k :: 0 <= k < |s.taken| ==> s.taken[k].ManifestDone?
    ensures forall k :: 0 <= k < |s.completions| ==> s.completions[k].ManifestDone?
  {
    hide ManifestOk;
    forall k | 0 <= k < |s.jobs| ensures s.jobs[k].ManifestJob? { assert JobOk(s, s.jobs[k]); }
    forall k | 0 <= k < |s.taken| ensures s.taken[k].ManifestDone? { assert DoneOk(l, s, s.taken[k]); }
    forall k | 0 <= k < |s.completions| ensures s.completions[k].ManifestDone? {
      assert DoneOk(l, s, s.completions[k]);
    }
  }

  lemma LoadRecords(l: Limits, s: State, s': State)
    requires Records(l, s) && s.manifest.None? && Closed(s) && LoadMove(s, s')
    requires s.taken[0].result.Some? ==> ManifestOk(l, s.taken[0].result.value)
    ensures Records(l, s') && Closed(s')
  {
    if s'.manifest.Some? {
      BlankDemand(s'.manifest.value.graph, s'.records);
    }
  }

  lemma LoadReports(l: Limits, s: State, s': State)
    requires Reports(l, s) && OneJobEach(s) && s.manifest.None? && s.records == [] && LoadMove(s, s')
    ensures Reports(l, s') && OneJobEach(s')
  {
    hide ManifestOk;
    NoContentBeforeManifest(l, s);
    forall k | 0 <= k < |s.jobs| ensures JobOk(s', s.jobs[k]) {}
    forall k | 0 <= k < |s'.taken| ensures DoneOk(l, s', s'.taken[k]) { assert DoneOk(l, s, s.taken[k + 1]); }
    forall k | 0 <= k < |s.completions| ensures DoneOk(l, s', s.completions[k]) {
      assert DoneOk(l, s, s.completions[k]);
    }
    forall i: nat ensures Outstanding(s', i) == if AcquiringAt(s', i) then 1 else 0 {
      assert Outstanding(s, i) == if AcquiringAt(s, i) then 1 else 0;
    }
  }

  lemma LoadKeeps(l: Limits, s: State, s': State)
    requires Inv(l, s) && LoadMove(s, s')
    ensures Inv(l, s')
  {
    hide Records, Reports, OneJobEach, Closed, ManifestOk;
    LoadReady(l, s);
    LoadRecords(l, s, s');
    LoadReports(l, s, s');
    TotalZero(s'.records, IsAcquiring);
    TotalZero(s'.records, IsRequested);
    TotalZero(s'.records, EncodedBytes);
  }

  /** Only demand counters differ. */
  ghost predicate SameButDemand(rs: seq<Record>, ts: seq<Record>) {
    && |rs| == |ts|
    && forall i :: 0 <= i < |rs| ==>
         ts[i] == rs[i].(directDemand := ts[i].directDemand, dependencyDemand := ts[i].dependencyDemand,
                         pins := ts[i].pins)
  }

  ghost predicate DemandMove(s: State, s': State) {
    && s.manifest.Some? && s' == s.(records := s'.records)
    && SameButDemand(s.records, s'.records)
    && DemandExact(s.manifest.value.graph, s'.records)
  }

  lemma DemandKeeps(l: Limits, s: State, s': State)
    requires Inv(l, s) && DemandMove(s, s')
    ensures Inv(l, s')
  {
    hide Reports, OneJobEach, ManifestOk;
    OneJobEachSame(s, s');
    ReportsSame(l, s, s');
    TotalSame(s.records, s'.records, IsAcquiring);
    TotalSame(s.records, s'.records, IsRequested);
    TotalSame(s.records, s'.records, EncodedBytes);
    DemandClosed(l, s, s');
  }

  lemma DemandClosed(l: Limits, s: State, s': State)
    requires Records(l, s) && Closed(s) && DemandMove(s, s')
    ensures Records(l, s') && Closed(s')
  {
    hide ManifestOk;
    var g := s.manifest.value.graph;
    forall u | 0 <= u < |s'.records| && s'.records[u].residency == Resident
      ensures DependenciesResident(g, s'.records, u)
    {
      assert DependenciesResident(g, s.records, u);
    }
  }
}
