/** The decoded-byte budget that workers share without a lock.
    Every load, compare-and-swap and release is one step; any worker may take the next one. */
module DecodedBudget {
  import opened Totals

  const WORD: nat := 0x1_0000_0000_0000_0000

  /** Unsigned machine arithmetic: what the counter does if it over- or underflows. */
  function Plus(a: nat, b: nat): nat { (a + b) % WORD }
  function Minus(a: nat, b: nat): nat { (a - b) % WORD }

  /** Where one worker stands: between two of its atomic operations. */
  datatype Phase =
    | Idle
    | Comparing(want: nat, current: nat)              // has loaded the counter
    | Claimed(want: nat, total: nat)                  // its compare-and-swap succeeded
    | Raising(want: nat, total: nat, seen: nat)       // has loaded the high-water mark
    | Wrapping(want: nat)                             // about to own the claim as a document

  datatype State = State(bytes: nat, highWater: nat, documents: seq<nat>, workers: seq<Phase>)

  datatype Action =
    | Load(w: nat, want: nat)
    | Swap(w: nat)          // compare-and-swap succeeds
    | Reload(w: nat)        // compare-and-swap fails, really or spuriously
    | Defer(w: nat)
    | LoadMark(w: nat)
    | RaiseMark(w: nat)
    | ReloadMark(w: nat)
    | MarkDone(w: nat)
    | Wrap(w: nat)
    | WrapFails(w: nat)
    | Destroy(k: nat)

  ghost predicate InPhase(s: State, w: nat, a: Action) {
    w < |s.workers| && match a
                       case Load(_, _) => s.workers[w].Idle?
                       case Swap(_) => s.workers[w].Comparing?
                       case Reload(_) => s.workers[w].Comparing?
                       case Defer(_) => s.workers[w].Comparing?
                       case LoadMark(_) => s.workers[w].Claimed?
                       case RaiseMark(_) => s.workers[w].Raising?
                       case ReloadMark(_) => s.workers[w].Raising?
                       case MarkDone(_) => s.workers[w].Raising?
                       case Wrap(_) => s.workers[w].Wrapping?
                       case WrapFails(_) => s.workers[w].Wrapping?
                       case Destroy(_) => false
  }

  function With(s: State, w: nat, p: Phase): State
    requires w < |s.workers|
  {
    s.(workers := s.workers[w := p])
  }

  /** One atomic step; `limit` is the configured decoded-document budget. */
  ghost predicate Step(limit: nat, s: State, a: Action, s': State) {
    if a.Destroy? then
      && a.k < |s.documents|
      && s' == s.(bytes := Minus(s.bytes, s.documents[a.k]), documents := s.documents[..a.k] + s.documents[a.k + 1..])
    else
      InPhase(s, a.w, a) && var p := s.workers[a.w]; match a
        case Load(w, want) => want <= limit && s' == With(s, w, Comparing(want, s.bytes))
        case Swap(w) =>
          && p.want <= Minus(limit, p.current) && s.bytes == p.current
          && s' == With(s, w, Claimed(p.want, Plus(p.current, p.want))).(bytes := Plus(p.current, p.want))
        case Reload(w) => p.want <= Minus(limit, p.current) && s' == With(s, w, Comparing(p.want, s.bytes))
        case Defer(w) => p.want > Minus(limit, p.current) && s' == With(s, w, Idle)
        case LoadMark(w) => s' == With(s, w, Raising(p.want, p.total, s.highWater))
        case RaiseMark(w) =>
          p.seen < p.total && s.highWater == p.seen && s' == With(s, w, Wrapping(p.want)).(highWater := p.total)
        case ReloadMark(w) => p.seen < p.total && s' == With(s, w, Raising(p.want, p.total, s.highWater))
        case MarkDone(w) => p.seen >= p.total && s' == With(s, w, Wrapping(p.want))
        case Wrap(w) => s' == With(s, w, Idle).(documents := s.documents + [p.want])
        case WrapFails(w) => s' == With(s, w, Idle).(bytes := Minus(s.bytes, p.want))
  }

  function Initial(workers: nat): State {
    State(0, 0, [], seq(workers, _ => Idle))
  }

  /** A history: the initial state and one state per atomic step since. */
  ghost predicate Run(limit: nat, workers: nat, h: seq<State>) {
    |h| > 0 && if |h| == 1 then h[0] == Initial(workers)
               else Run(limit, workers, h[..|h| - 1]) && Moves(limit, h[|h| - 2], h[|h| - 1])
  }

  ghost predicate Moves(limit: nat, s: State, s': State) {
    exists a :: Step(limit, s, a, s')
  }

  /** The largest counter value of a history. */
  ghost function Peak(h: seq<State>): nat {
    if h == [] then 0
    else
      var before := Peak(h[..|h| - 1]);
      if before < h[|h| - 1].bytes then h[|h| - 1].bytes else before
  }

  // ---- Invariants

  function Size(d: nat): nat { d }
  function Claim(p: Phase): nat {
    match p
    case Idle => 0
    case Comparing(_, _) => 0
    case Claimed(want, _) => want
    case Raising(want, _, _) => want
    case Wrapping(want) => want
  }

  ghost predicate PhaseOk(limit: nat, s: State, p: Phase) {
    match p
    case Comparing(want, current) => want <= limit && current <= limit
    case Raising(_, _, seen) => seen <= s.highWater
    case _ => true
  }

  /** Conservation: the counter is the live documents plus the claims not yet wrapped. */
  ghost predicate Balanced(limit: nat, s: State) {
    && s.bytes == Total(s.documents, Size) + Total(s.workers, Claim) <= limit
    && forall w :: 0 <= w < |s.workers| ==> PhaseOk(limit, s, s.workers[w])
  }

  ghost predicate Announces(p: Phase, total: nat) {
    (p.Claimed? || p.Raising?) && p.total == total
  }

  /** The mark has reached the peak, or a worker that saw the peak is still on its way to record it. */
  ghost predicate Marked(s: State, peak: nat) {
    && s.bytes <= peak && s.highWater <= peak
    && (forall w :: 0 <= w < |s.workers| && (s.workers[w].Claimed? || s.workers[w].Raising?) ==>
        s.workers[w].total <= peak)
    && (s.highWater == peak || exists w :: 0 <= w < |s.workers| && Announces(s.workers[w], peak))
  }

  /** No step wraps: it lowers the counter by what it gives back or raises it by what it claims. */
  lemma StepBytes(limit: nat, s: State, a: Action, s': State)
    requires limit < WORD && Balanced(limit, s) && Step(limit, s, a, s')
    ensures a.Destroy? ==> s'.bytes == s.bytes - s.documents[a.k]
    ensures a.Swap? ==> a.w < |s'.workers| && s'.bytes == s.bytes + s.workers[a.w].want <= limit
                        && s'.workers[a.w] == Claimed(s.workers[a.w].want, s'.bytes)
    ensures a.WrapFails? ==> s'.bytes == s.bytes - s.workers[a.w].want
    ensures !a.Destroy? && !a.Swap? && !a.WrapFails? ==> s'.bytes == s.bytes
    ensures !a.Swap? ==> s'.bytes <= s.bytes
  {
    if a.Destroy? {
      TotalMember(s.documents, a.k, Size);
    } else if a.Swap? {
      assert PhaseOk(limit, s, s.workers[a.w]);
    } else if a.WrapFails? {
      TotalMember(s.workers, a.w, Claim);
    }
  }

  lemma StepPhases(limit: nat, s: State, a: Action, s': State)
    requires Balanced(limit, s) && Step(limit, s, a, s')
    ensures |s'.workers| == |s.workers| && s.highWater <= s'.highWater
    ensures forall w :: 0 <= w < |s'.workers| ==> PhaseOk(limit, s', s'.workers[w])
  {
    hide Plus, Minus;
    forall w | 0 <= w < |s'.workers| ensures PhaseOk(limit, s', s'.workers[w]) {
      assert PhaseOk(limit, s, s.workers[w]);
    }
  }

  lemma StepBalanced(limit: nat, s: State, a: Action, s': State)
    requires limit < WORD && Balanced(limit, s) && Step(limit, s, a, s')
    ensures Balanced(limit, s')
  {
    hide Plus, Minus;
    StepBytes(limit, s, a, s');
    StepPhases(limit, s, a, s');
    if a.Destroy? {
      TotalRemove(s.documents, a.k, Size);
    } else {
      assert s'.workers == s.workers[a.w := s'.workers[a.w]];
      TotalUpdate(s.workers, a.w, s'.workers[a.w], Claim);
      if a.Wrap? {
        TotalAppend(s.documents, s.workers[a.w].want, Size);
      }
    }
  }

  ghost function Max(a: nat, b: nat): nat { if a < b then b else a }

  /** A worker that announces the peak goes on doing so until the mark has reached it. */
  lemma StillAnnounced(limit: nat, s: State, a: Action, s': State, peak: nat, w: nat)
    requires Balanced(limit, s) && Marked(s, peak) && Step(limit, s, a, s')
    requires w < |s.workers| && Announces(s.workers[w], peak)
    ensures s'.highWater == peak || (w < |s'.workers| && Announces(s'.workers[w], peak))
  {
    hide Plus, Minus;
    assert PhaseOk(limit, s, s.workers[w]);
  }

  lemma MarkStays(limit: nat, s: State, a: Action, s': State, peak: nat)
    requires Balanced(limit, s) && Marked(s, peak) && Step(limit, s, a, s')
    ensures s.highWater == peak ==> s'.highWater == peak
    ensures s'.highWater <= peak
  {
    hide Plus, Minus;
  }

  lemma StepMarked(limit: nat, s: State, a: Action, s': State, peak: nat)
    requires limit < WORD && Balanced(limit, s) && Marked(s, peak) && Step(limit, s, a, s')
    ensures Marked(s', Max(peak, s'.bytes))
  {
    hide Step;
    StepBytes(limit, s, a, s');
    MarkStays(limit, s, a, s', peak);
    var top := Max(peak, s'.bytes);
    TotalsBelow(limit, s, a, s', peak);
    if top > peak {
      assert a.Swap? && Announces(s'.workers[a.w], top);
    } else if s'.highWater != peak {
      var w: nat :| w < |s.workers| && Announces(s.workers[w], peak);
      StillAnnounced(limit, s, a, s', peak, w);
    }
  }

  lemma TotalsBelow(limit: nat, s: State, a: Action, s': State, peak: nat)
    requires limit < WORD && Balanced(limit, s) && Marked(s, peak) && Step(limit, s, a, s')
    ensures forall w :: 0 <= w < |s'.workers| && (s'.workers[w].Claimed? || s'.workers[w].Raising?) ==>
              s'.workers[w].total <= Max(peak, s'.bytes)
  {
    hide Plus, Minus;
    StepBytes(limit, s, a, s');
  }

  lemma {:induction false} RunInvariant(limit: nat, workers: nat, h: seq<State>)
    requires limit < WORD && Run(limit, workers, h)
    ensures Balanced(limit, h[|h| - 1]) && Marked(h[|h| - 1], Peak(h))
  {
    if |h| == 1 {
      assert h[..0] == [] && Peak(h) == 0;
      TotalZero(h[0].workers, Claim);
    } else {
      var before := h[..|h| - 1];
      RunInvariant(limit, workers, before);
      assert Moves(limit, h[|h| - 2], h[|h| - 1]);
      var a :| Step(limit, h[|h| - 2], a, h[|h| - 1]);
      StepBalanced(limit, h[|h| - 2], a, h[|h| - 1]);
      StepMarked(limit, h[|h| - 2], a, h[|h| - 1], Peak(before));
    }
  }

  ghost predicate ComparingAt(s: State, w: nat) {
    w < |s.workers| && s.workers[w].Comparing?
  }

  /** Every interleaving conserves bytes, stays within the limit and never wraps the counter. */
  lemma EveryInterleavingFits(limit: nat, workers: nat, h: seq<State>)
    requires limit < WORD && Run(limit, workers, h)
    ensures var s := h[|h| - 1];
            && s.bytes == Total(s.documents, Size) + Total(s.workers, Claim) <= limit
            && (forall w: nat :: ComparingAt(s, w) ==>
                Minus(limit, s.workers[w].current) == limit - s.workers[w].current)
            && (forall k :: 0 <= k < |s.documents| ==> s.documents[k] <= s.bytes)
            && (forall w :: 0 <= w < |s.workers| ==> Claim(s.workers[w]) <= s.bytes)
  {
    RunInvariant(limit, workers, h);
    WithinBalance(limit, h[|h| - 1]);
  }

  lemma WithinBalance(limit: nat, s: State)
    requires limit < WORD && Balanced(limit, s)
    ensures forall w: nat :: ComparingAt(s, w) ==> Minus(limit, s.workers[w].current) == limit - s.workers[w].current
    ensures forall k :: 0 <= k < |s.documents| ==> s.documents[k] <= s.bytes
    ensures forall w :: 0 <= w < |s.workers| ==> Claim(s.workers[w]) <= s.bytes
  {
    forall w: nat | ComparingAt(s, w) ensures Minus(limit, s.workers[w].current) == limit - s.workers[w].current {
      assert PhaseOk(limit, s, s.workers[w]);
    }
    forall k: nat | k < |s.documents| ensures s.documents[k] <= s.bytes {
      TotalMember(s.documents, k, Size);
    }
    forall w: nat | w < |s.workers| ensures Claim(s.workers[w]) <= s.bytes {
      TotalMember(s.workers, w, Claim);
    }
  }

  /** A worker whose view is current claims exactly what fits, and gives up exactly what does not; one whose view has
      grown stale can only look again. */
  lemma ViewDecides(limit: nat, s: State, w: nat)
    requires limit < WORD && Balanced(limit, s) && ComparingAt(s, w)
    ensures (exists t :: Step(limit, s, Swap(w), t)) <==>
            s.workers[w].current == s.bytes && s.bytes + s.workers[w].want <= limit
    ensures (exists t :: Step(limit, s, Defer(w), t)) <==> s.workers[w].current + s.workers[w].want > limit
    ensures (exists t :: Step(limit, s, Reload(w), t)) <==> s.workers[w].current + s.workers[w].want <= limit
  {
    var p := s.workers[w];
    assert PhaseOk(limit, s, p);
    assert Minus(limit, p.current) == limit - p.current;
    if p.want <= limit - p.current {
      assert Step(limit, s, Reload(w), With(s, w, Comparing(p.want, s.bytes)));
      if s.bytes == p.current {
        var t := With(s, w, Claimed(p.want, Plus(p.current, p.want))).(bytes := Plus(p.current, p.want));
        assert Step(limit, s, Swap(w), t);
      }
    } else {
      assert Step(limit, s, Defer(w), With(s, w, Idle));
    }
  }

  ghost predicate Quiet(s: State) {
    forall w :: 0 <= w < |s.workers| ==> !s.workers[w].Claimed? && !s.workers[w].Raising?
  }

  /** Once no worker is between its claim and its mark, the mark is the true peak of the whole history. */
  lemma HighWaterIsPeak(limit: nat, workers: nat, h: seq<State>)
    requires limit < WORD && Run(limit, workers, h)
    ensures h[|h| - 1].highWater <= Peak(h) <= limit
    ensures Quiet(h[|h| - 1]) ==> h[|h| - 1].highWater == Peak(h)
  {
    RunInvariant(limit, workers, h);
    PeakWithinLimit(limit, workers, h);
  }

  lemma {:induction false} PeakWithinLimit(limit: nat, workers: nat, h: seq<State>)
    requires limit < WORD && Run(limit, workers, h)
    ensures Peak(h) <= limit
  {
    RunInvariant(limit, workers, h);
    if |h| > 1 {
      PeakWithinLimit(limit, workers, h[..|h| - 1]);
    }
  }
}
