/** What taking a batch of worker reports, and settling one of them, makes of the state. */
module Settlement {
  import opened Options
  import opened DependencyDemand
  import opened ResidencyState
  import opened CacheSpace
  import opened Totals

  /** The oldest reports of the queue, as many as a tick may take, and their payload bytes leave the queue. */
  ghost predicate TakenFrom(l: Limits, s: State, t: State) {
    && s.taken == [] && t.taken + t.completions == s.completions
    && (if |s.completions| <= l.maxCompletionsPerTick then t.completions == []
        else |t.taken| == l.maxCompletionsPerTick)
    && t == s.(taken := t.taken, completions := t.completions, completionBytes := t.completionBytes)
    && t.completionBytes + Total(t.taken, PayloadBytes) == s.completionBytes
  }

  /** A manifest report: on success the records appear, and exactly the bootstrap units are asked for. */
  ghost predicate Loaded(full: bool, s: State, t: State, result: Option<Manifest>) {
    && s.manifest.None? && t.manifest == result && !t.manifestInFlight
    && (result.None? ==> t.records == s.records)
    && (result.Some? ==>
          && |t.records| == |result.value.units|
          && forall i :: 0 <= i < |t.records| ==>
               && t.records[i].residency == Unavailable && t.records[i].pins == 0 && !t.records[i].cached
               && t.records[i].directDemand == if full || result.value.units[i].atBootstrap then 1 else 0)
  }

  /** A report of verified bytes for a wanted unit: the unit is Available if its payload fits once everything that
      must go is gone, and Failed otherwise. The document is kept only when all dependencies are Resident. */
  ghost predicate Stored(l: Limits, s: State, t: State, i: nat, reserved: nat, hasDocument: bool) {
    && i < |s.records| == |t.records| && s.manifest.Some? && i < |s.manifest.value.graph|
    && var r := s.records[i];
       var need := reserved + s.cachedBytes;
       var usable := hasDocument && DependenciesResident(s.manifest.value.graph, s.records, i);
       var published := r.(residency := Available, cancelFlag := None, cached := true, encodedBytes := reserved,
                           prepared := usable);
       if r.cached then t.records == s.records[i := published] && t.leaked == s.leaked
       else
         && Cleared(s.records, t.records[i := r], i, need, l.maxCachedBytes, 0)
         && t.leaked == s.leaked + Leaks(s.records, i, need, l.maxCachedBytes, 0)
         && t.records[i] == if need <= l.maxCachedBytes + Freed(s.records, i, 0) then published
                            else r.(residency := Failed, cancelFlag := None)
  }

  /** A content report: the slot and the reserved bytes come back, and the unit's job is over. */
  ghost predicate Finished(l: Limits, s: State, t: State, i: nat, reserved: nat, outcome: Outcome) {
    && i < |s.records| && t.manifest == s.manifest && t.manifestInFlight == s.manifestInFlight
    && t.pending == s.pending && t.inFlight + 1 == s.inFlight && t.reserved + reserved == s.reserved
    && s.records[i].residency == Acquiring
    && var r := s.records[i];
       if Desire(r) == 0 || r.cancelFlag == Some(true) then
         t.records == s.records[i := r.(residency := Unavailable, cancelFlag := None)] && t.leaked == s.leaked
       else
         match outcome
         case Rejected =>
           t.records == s.records[i := r.(residency := Failed, cancelFlag := None)] && t.leaked == s.leaked
         case Prepared(hasDocument) => Stored(l, s, t, i, reserved, hasDocument)
  }

  /** The first taken report is settled. */
  ghost predicate Settled(l: Limits, full: bool, s: State, t: State) {
    && s.taken != [] && t.taken == s.taken[1..] && t.jobs == s.jobs
    && t.completions == s.completions && t.completionBytes == s.completionBytes
    && match s.taken[0]
       case ManifestDone(result) => Loaded(full, s, t, result) && t.leaked == s.leaked
       case ContentDone(i, reserved, outcome) => Finished(l, s, t, i, reserved, outcome)
  }

  /** All reports of a batch are settled, one after another. */
  ghost predicate AllSettled(l: Limits, full: bool, states: seq<State>) {
    && states != [] && states[|states| - 1].taken == []
    && forall k: nat :: k + 1 < |states| ==> Settled(l, full, states[k], states[k + 1])
  }
}
