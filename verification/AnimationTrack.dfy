/** A track's playback clock, and the intervals of root motion it hands out frame by frame. */
module AnimationTrack {
  import opened Options
  import opened RootMotion

  const MAX_SPEED: real := 16.0

  datatype Playback = Stopped | Playing | Paused

  /** Clip time that passes in a frame. */
  function Travel(delta: real, rate: real): real {
    delta * rate
  }

  /** What a track has done about root motion: an interval handed out, or the motion started afresh. */
  datatype Mark = Handed(interval: Interval) | Restart(looped: bool, at: real)

  /** The marks that one control leaves. */
  function Restarts(rebased: bool, looped: bool, at: real): seq<Mark> {
    if rebased then [Restart(looped, at)] else []
  }

  /** The clock after a frame in which the track plays. */
  function Advanced(t: real, travel: real, looped: bool, duration: real): real {
    if looped || t + travel < duration then t + travel else duration
  }

  class MotionTrack {
    const duration: real
    var timePosition: real
    var logicalTime: real
    var sampleTime: real
    var speed: real
    var looped: bool
    var playback: Playback
    var naturalEnd: bool
    var pendingEnded: bool
    var enabled: bool
    var baseline: bool
    var invalidated: bool
    ghost var log: seq<Mark>

    /** The clock stays in range, and a track that may be sampled always has a baseline. */
    ghost predicate Valid()
      reads this
    {
      && duration > 0.0 && 0.0 <= timePosition <= duration && logicalTime >= 0.0 && sampleTime >= 0.0
         && 0.0 <= speed <= MAX_SPEED
      && (enabled && (playback != Stopped || naturalEnd) ==> baseline)
      && (naturalEnd ==> playback == Stopped && timePosition == duration)
    }

    constructor (length: real)
      requires length > 0.0
      ensures Valid() && duration == length && !looped && !enabled && !invalidated
      ensures logicalTime == sampleTime == 0.0 && playback == Stopped && !naturalEnd && speed == 1.0 && log == []
    {
      duration := length;
      timePosition, logicalTime, sampleTime, speed := 0.0, 0.0, 0.0, 1.0;
      looped, playback, naturalEnd, pendingEnded := false, Stopped, false, false;
      enabled, baseline, invalidated := false, false, false;
      log := [];
    }

    /** Whether the frame step takes an interval from this track. */
    predicate Required()
      reads this
    {
      enabled && !invalidated && (playback == Playing || naturalEnd)
    }

    /** Changing the loop starts the motion afresh from the current time. */
    method SetLooped(value: bool) returns (ghost rebased: bool)
      requires Valid()
      modifies this
      ensures Valid() && rebased == (!old(invalidated) && old(looped) != value)
      ensures looped == (if old(invalidated) then old(looped) else value) && logicalTime == old(logicalTime)
      ensures sampleTime == if rebased then logicalTime else old(sampleTime)
      ensures enabled == old(enabled) && playback == old(playback) && naturalEnd == old(naturalEnd)
      ensures timePosition == old(timePosition) && speed == old(speed) && invalidated == old(invalidated)
      ensures log == old(log) + Restarts(rebased, looped, sampleTime)
    {
      if invalidated || looped == value {
        return false;
      }
      looped := value;
      sampleTime := logicalTime;
      baseline := enabled;
      log := log + [Restart(looped, sampleTime)];
      return true;
    }

    /** Seeking clamps into the clip and starts the motion afresh from there. */
    method SetTimePosition(value: real) returns (ghost rebased: bool)
      requires Valid()
      modifies this
      ensures var at := Clamp(value, 0.0, duration);
              Valid() && rebased == (!old(invalidated) && (old(timePosition) != at || old(naturalEnd)))
              && (rebased ==> sampleTime == logicalTime == timePosition == at && !naturalEnd && !pendingEnded)
              && (!rebased ==> sampleTime == old(sampleTime) && logicalTime == old(logicalTime)
                               && naturalEnd == old(naturalEnd))
              && timePosition == (if old(invalidated) then old(timePosition) else at)
      ensures looped == old(looped) && enabled == old(enabled) && playback == old(playback)
      ensures speed == old(speed) && invalidated == old(invalidated)
      ensures log == old(log) + Restarts(rebased, looped, sampleTime)
    {
      if invalidated {
        return false;
      }
      var at := if value < 0.0 then 0.0 else if value > duration then duration else value;
      if timePosition == at && !naturalEnd {
        return false;
      }
      timePosition, logicalTime, sampleTime := at, at, at;
      baseline := enabled;
      naturalEnd, pendingEnded := false, false;
      log := log + [Restart(looped, at)];
      return true;
    }

    /** Any speed within range; refused speeds change nothing. */
    method SetSpeed(value: real) returns (ok: bool)
      requires Valid()
      modifies this`speed
      ensures Valid() && ok == (0.0 <= value <= MAX_SPEED)
      ensures speed == if ok && !invalidated then value else old(speed)
    {
      if value < 0.0 || value > MAX_SPEED {
        return false;
      }
      if !invalidated {
        speed := value;
      }
      return true;
    }

    method Play(ownerAlive: bool) returns (ghost rebased: bool)
      requires Valid()
      modifies this
      ensures Valid() && rebased == (!old(invalidated) && ownerAlive) && looped == old(looped)
              && enabled == old(enabled)
      ensures rebased ==> playback == Playing && sampleTime == logicalTime == timePosition == 0.0 && !naturalEnd
                          && !pendingEnded
      ensures !rebased ==> playback == old(playback) && sampleTime == old(sampleTime) && logicalTime == old(logicalTime)
                           && timePosition == old(timePosition) && naturalEnd == old(naturalEnd)
      ensures speed == old(speed) && invalidated == old(invalidated)
      ensures log == old(log) + Restarts(rebased, looped, sampleTime)
    {
      if invalidated || !ownerAlive {
        return false;
      }
      timePosition, logicalTime, sampleTime := 0.0, 0.0, 0.0;
      baseline := enabled;
      naturalEnd, pendingEnded := false, false;
      playback := Playing;
      log := log + [Restart(looped, 0.0)];
      return true;
    }

    method Pause()
      requires Valid()
      modifies this`playback
      ensures Valid() && playback == if !invalidated && old(playback) == Playing then Paused else old(playback)
    {
      if invalidated || playback != Playing {
        return;
      }
      playback := Paused;
    }

    method Resume(ownerAlive: bool)
      requires Valid()
      modifies this`playback
      ensures Valid() && playback == if !invalidated && ownerAlive && old(playback) == Paused then Playing
              else old(playback)
    {
      if invalidated || !ownerAlive || playback != Paused {
        return;
      }
      playback := Playing;
    }

    method Stop() returns (ghost rebased: bool)
      requires Valid()
      modifies this
      ensures Valid() && looped == old(looped) && enabled == old(enabled)
      ensures rebased == (!old(invalidated)
                          && !(old(playback) == Stopped && old(timePosition) == 0.0 && !old(naturalEnd)))
      ensures rebased ==> playback == Stopped && sampleTime == logicalTime == timePosition == 0.0 && !naturalEnd
                          && !pendingEnded
      ensures !rebased ==> playback == old(playback) && sampleTime == old(sampleTime) && logicalTime == old(logicalTime)
                           && timePosition == old(timePosition) && naturalEnd == old(naturalEnd)
      ensures speed == old(speed) && invalidated == old(invalidated)
      ensures log == old(log) + Restarts(rebased, looped, sampleTime)
    {
      if invalidated {
        return false;
      }
      if playback == Stopped && timePosition == 0.0 && !naturalEnd {
        return false;
      }
      playback := Stopped;
      timePosition, logicalTime, sampleTime := 0.0, 0.0, 0.0;
      baseline, naturalEnd, pendingEnded := false, false, false;
      log := log + [Restart(looped, 0.0)];
      return true;
    }

    /** Becoming the animator's source of root motion starts it afresh; ceasing to be keeps the clock. */
    method SetRootMotionEnabled(value: bool, ownerAlive: bool) returns (ghost rebased: bool)
      requires Valid()
      modifies this`enabled, this`sampleTime, this`baseline, this`log
      ensures Valid() && rebased == (!invalidated && ownerAlive && value && !old(enabled))
      ensures enabled == if invalidated || !ownerAlive then old(enabled) else value
      ensures sampleTime == if rebased then logicalTime else old(sampleTime)
      ensures log == old(log) + Restarts(rebased, looped, sampleTime)
    {
      if invalidated || enabled == value || !ownerAlive {
        return false;
      }
      enabled := value;
      baseline := value;
      if value {
        sampleTime := logicalTime;
        log := log + [Restart(looped, sampleTime)];
      }
      return value;
    }

    /** Moves the clock. It runs backwards only when the loop was turned off after the clip's end had passed. */
    method AdvanceRuntime(delta: real) returns (moved: bool)
      requires Valid()
      modifies this
      ensures Valid() && moved == (!invalidated && old(playback) == Playing && delta > 0.0 && speed != 0.0)
      ensures !moved ==> logicalTime == old(logicalTime) && playback == old(playback) && naturalEnd == old(naturalEnd)
      ensures moved ==> logicalTime == Advanced(old(logicalTime), Travel(delta, speed), looped, duration)
      ensures moved ==> var there := old(logicalTime) + delta * speed;
                        if looped || there < duration then logicalTime == there else logicalTime == duration
      ensures moved && !looped ==> timePosition == logicalTime
      ensures moved && looped ==> Cycles(logicalTime, duration) >= 0
                                  && LiesAt(logicalTime, duration, Cycles(logicalTime, duration), timePosition)
      ensures !moved ==> timePosition == old(timePosition)
      ensures moved ==> (logicalTime < old(logicalTime) <==> !looped && old(logicalTime) > duration)
      ensures moved ==> (naturalEnd && playback == Stopped && timePosition == duration
                         <==> !looped && logicalTime == duration)
      ensures looped == old(looped) && enabled == old(enabled) && sampleTime == old(sampleTime)
              && invalidated == old(invalidated) && speed == old(speed) && log == old(log)
      ensures moved && looped ==> playback == Playing && !naturalEnd
      ensures moved ==> playback == Playing || naturalEnd
    {
      if invalidated || playback != Playing || delta <= 0.0 || speed == 0.0 {
        return false;
      }
      Advances(delta, speed);
      var advanced := logicalTime + delta * speed;
      assert advanced == logicalTime + Travel(delta, speed);
      hide Travel, Remainder, LiesAt;
      if looped {
        logicalTime := advanced;
        CyclesBound(advanced, duration);
        LiesSomewhere(advanced, duration);
        timePosition := Remainder(advanced, duration);
        naturalEnd := false;
        return true;
      }
      if advanced >= duration {
        timePosition, logicalTime := duration, duration;
        playback := Stopped;
        naturalEnd, pendingEnded := true, true;
        return true;
      }
      logicalTime, timePosition := advanced, advanced;
      return true;
    }

    lemma Advances(delta: real, rate: real)
      requires delta > 0.0 && rate > 0.0
      ensures Travel(delta, rate) > 0.0
    {}

    method Invalidate()
      requires Valid()
      modifies this
      ensures Valid() && invalidated && !Required() && log == old(log)
    {
      if invalidated {
        return;
      }
      invalidated, playback := true, Stopped;
      timePosition, logicalTime, sampleTime := 0.0, 0.0, 0.0;
      enabled, baseline, naturalEnd, pendingEnded := false, false, false, false;
    }

    /** The frame step's share: advance, then hand out what has passed since the last sample. A baseline is never
        missing. */
    method Step(delta: real) returns (interval: Option<Interval>)
      requires Valid()
      modifies this
      ensures Valid() && looped == old(looped) && enabled == old(enabled) && invalidated == old(invalidated)
      ensures interval.Some? <==> Required()
      ensures interval.Some? <==> enabled && !invalidated && (playback == Playing || naturalEnd)
      ensures interval.Some? ==> interval.value == Interval(old(sampleTime), logicalTime)
      ensures sampleTime == if interval.Some? then logicalTime else old(sampleTime)
      ensures log == old(log) + if interval.Some? then [Handed(interval.value)] else []
      ensures logicalTime == if !invalidated && old(playback) == Playing && delta > 0.0 && speed != 0.0
                             then Advanced(old(logicalTime), Travel(delta, speed), looped, duration)
                               else old(logicalTime)
      ensures looped && old(playback) == Playing && delta > 0.0 && speed != 0.0 && !invalidated ==> playback == Playing
      ensures speed == old(speed)
      ensures var moved := !invalidated && old(playback) == Playing && delta > 0.0 && speed != 0.0;
              && (!moved ==> playback == old(playback) && naturalEnd == old(naturalEnd)
                             && timePosition == old(timePosition))
              && (moved && !looped ==> timePosition == logicalTime && (playback == Playing || naturalEnd))
              && (moved && looped ==> Cycles(logicalTime, duration) >= 0
                                      && LiesAt(logicalTime, duration, Cycles(logicalTime, duration), timePosition))
      ensures enabled && !invalidated && old(playback) == Playing && delta > 0.0 && speed != 0.0 ==> Required()
    {
      hide Travel, LiesAt, Cycles;
      var _ := AdvanceRuntime(delta);
      if !Required() {
        return None;
      }
      var hasBaseline := baseline;
      interval := Some(Interval(sampleTime, logicalTime));
      sampleTime := logicalTime;
      baseline := true;
      if !hasBaseline {
        return None;
      }
      log := log + [Handed(interval.value)];
    }
  }

  // Whole runs.

  datatype Event =
    | Frame(delta: real)
    | ChangeLoop(value: bool)
    | Seek(to: real)
    | ChangeSpeed(speed: real)
    | Start(ownerAlive: bool)
    | Hold
    | Continue(ownerAlive: bool)
    | Halt
    | Source(value: bool, ownerAlive: bool)

  /** What was handed out between two controls that restart the motion. */
  datatype Segment = Segment(looped: bool, start: real, intervals: seq<Interval>)

  ghost predicate Connected(s: Segment) {
    Abut(s.start, s.intervals)
  }

  ghost predicate Runs(segments: seq<Segment>) {
    segments != [] && forall k: nat :: k < |segments| ==> Connected(segments[k])
  }

  /** The last segment ends where the track will resume. */
  ghost predicate Current(segments: seq<Segment>, looped: bool, sample: real) {
    && Runs(segments)
    && var last := segments[|segments| - 1]; last.looped == looped && EndOf(last.start, last.intervals) == sample
  }

  function Extended(segments: seq<Segment>, interval: Interval): (r: seq<Segment>)
    requires segments != []
    ensures r != []
  {
    var last := segments[|segments| - 1];
    segments[|segments| - 1 := last.(intervals := last.intervals + [interval])]
  }

  /** The marks of a run, cut into segments at every restart; `first` is the segment the run starts in. */
  function Segments(first: Segment, marks: seq<Mark>): (r: seq<Segment>)
    ensures r != []
  {
    if marks == [] then [first]
    else
      var before := Segments(first, marks[..|marks| - 1]);
      match marks[|marks| - 1]
      case Handed(interval) => Extended(before, interval)
      case Restart(looped, at) => before + [Segment(looped, at, [])]
  }

  /** The marks that a segment stands for. */
  function MarksOf(s: Segment): seq<Mark> {
    [Restart(s.looped, s.start)] + seq(|s.intervals|, i requires 0 <= i < |s.intervals| => Handed(s.intervals[i]))
  }

  function AllMarks(segments: seq<Segment>): seq<Mark> {
    if segments == [] then [] else AllMarks(segments[..|segments| - 1]) + MarksOf(segments[|segments| - 1])
  }

  /** Cutting loses, adds and reorders nothing: the segments spell the marks again. */
  lemma {:induction false} SegmentsSpellMarks(first: Segment, marks: seq<Mark>)
    ensures AllMarks(Segments(first, marks)) == MarksOf(first) + marks
  {
    var n := |marks|;
    if n == 0 {
      assert AllMarks([first]) == AllMarks([]) + MarksOf(first);
      assert MarksOf(first) + marks == MarksOf(first);
    } else {
      var before, mark := Segments(first, marks[..n - 1]), marks[n - 1];
      SegmentsSpellMarks(first, marks[..n - 1]);
      assert marks == marks[..n - 1] + [mark];
      var k := |before| - 1;
      match mark {
        case Handed(interval) =>
          var after := Extended(before, interval);
          assert after[..k] == before[..k];
          assert MarksOf(after[k]) == MarksOf(before[k]) + [mark];
          assert AllMarks(after) == AllMarks(before[..k]) + MarksOf(after[k]);
          assert AllMarks(after) == AllMarks(before) + [mark];
        case Restart(looped, at) =>
          var after := before + [Segment(looped, at, [])];
          assert after[..|before|] == before;
          assert MarksOf(Segment(looped, at, [])) == [mark];
          assert AllMarks(after) == AllMarks(before) + [mark];
      }
    }
  }

  lemma ExtendedIsCurrent(segments: seq<Segment>, looped: bool, sample: real, interval: Interval)
    requires Current(segments, looped, sample) && interval.from == sample
    ensures Current(Extended(segments, interval), looped, interval.to)
  {
    var last := segments[|segments| - 1];
    AbutExtend(last.start, last.intervals, interval.to);
  }

  lemma RestartIsCurrent(segments: seq<Segment>, looped: bool, sample: real)
    requires Runs(segments)
    ensures Current(segments + [Segment(looped, sample, [])], looped, sample)
  {}

  /** A mark that continues the run's segments, where they stand. */
  lemma MarkIsCurrent(first: Segment, marks: seq<Mark>, mark: Mark, looped: bool, sample: real)
    requires Current(Segments(first, marks), looped, sample)
    requires mark.Handed? ==> mark.interval.from == sample
    ensures mark.Handed? ==> Current(Segments(first, marks + [mark]), looped, mark.interval.to)
    ensures mark.Restart? ==> Current(Segments(first, marks + [mark]), mark.looped, mark.at)
  {
    assert (marks + [mark])[..|marks|] == marks;
    var before := Segments(first, marks);
    hide Current;
    if mark.Handed? {
      ExtendedIsCurrent(before, looped, sample, mark.interval);
    } else {
      CurrentRuns(before, looped, sample);
      RestartIsCurrent(before, mark.looped, mark.at);
    }
  }

  lemma CurrentRuns(segments: seq<Segment>, looped: bool, sample: real)
    requires Current(segments, looped, sample)
    ensures Runs(segments)
  {}

  /** What the log gained since `before`. */
  ghost function Since(log: seq<Mark>, before: seq<Mark>): seq<Mark>
    requires |before| <= |log|
  {
    log[|before|..]
  }

  lemma SinceGrows(log: seq<Mark>, before: seq<Mark>, more: seq<Mark>)
    requires |before| <= |log|
    ensures Since(log + more, before) == Since(log, before) + more
  {}

  /** One event leaves at most one mark, and the marks of the run go on fitting the track. */
  method Apply(track: MotionTrack, event: Event, ghost first: Segment, ghost before: seq<Mark>)
    requires track.Valid() && |before| <= |track.log|
    requires Current(Segments(first, Since(track.log, before)), track.looped, track.sampleTime)
    modifies track
    ensures track.Valid() && old(track.log) <= track.log
    ensures Current(Segments(first, Since(track.log, before)), track.looped, track.sampleTime)
  {
    hide Current, MotionTrack.Valid, Since, Segments, Advanced, Travel;
    ghost var log, looped, sample, marks := track.log, track.looped, track.sampleTime, Since(track.log, before);
    ghost var rebased := false;
    match event {
      case Frame(delta) =>
        var interval := track.Step(delta);
        if interval.Some? {
          SinceGrows(log, before, [Handed(interval.value)]);
          MarkIsCurrent(first, marks, Handed(interval.value), looped, sample);
        } else {
          assert track.log == log;
        }
        return;
      case ChangeLoop(value) => rebased := track.SetLooped(value);
      case Seek(to) => rebased := track.SetTimePosition(to);
      case ChangeSpeed(value) => var _ := track.SetSpeed(value);
      case Start(ownerAlive) => rebased := track.Play(ownerAlive);
      case Hold => track.Pause();
      case Continue(ownerAlive) => track.Resume(ownerAlive);
      case Halt => rebased := track.Stop();
      case Source(value, ownerAlive) => rebased := track.SetRootMotionEnabled(value, ownerAlive);
    }
    if rebased {
      SinceGrows(log, before, [Restart(track.looped, track.sampleTime)]);
      MarkIsCurrent(first, marks, Restart(track.looped, track.sampleTime), looped, sample);
    } else {
      assert track.log == log;
    }
  }

  /** Over any run of frames and controls, everything handed out and every restart, in order, falls into segments
      whose intervals abut; the last one ends where the track will resume. */
  method Run(track: MotionTrack, events: seq<Event>)
    requires track.Valid()
    modifies track
    ensures track.Valid() && old(track.log) <= track.log
    ensures Current(Segments(Segment(old(track.looped), old(track.sampleTime), []), Since(track.log, old(track.log))),
                    track.looped, track.sampleTime)
  {
    ghost var first, before := Segment(track.looped, track.sampleTime, []), track.log;
    StartIsCurrent(first, before);
    hide MotionTrack.Valid, Current, Segments, Since;
    for k := 0 to |events|
      invariant track.Valid() && before <= track.log
      invariant Current(Segments(first, Since(track.log, before)), track.looped, track.sampleTime)
    {
      Apply(track, events[k], first, before);
    }
  }

  lemma StartIsCurrent(first: Segment, log: seq<Mark>)
    requires first.intervals == []
    ensures Current(Segments(first, Since(log, log)), first.looped, first.start)
  {
    assert Since(log, log) == [];
    assert Connected(first);
  }

  /** In every segment of a run's log, the frame motions compose to the motion over the segment's whole span. */
  lemma SegmentMotion<T(!new)>(g: Group<T>, clip: Clip<T>, first: Segment, marks: seq<Mark>, looped: bool,
                               sample: real, k: nat)
    requires Laws(g) && Current(Segments(first, marks), looped, sample) && k < |Segments(first, marks)|
    requires var s := Segments(first, marks)[k]; AllKnown(g, clip, s.looped, s.start, s.intervals)
    ensures var s := Segments(first, marks)[k];
            Delta(g, clip, s.looped, s.start, EndOf(s.start, s.intervals))
              == Some(Motion(g, clip, s.looped, s.start, s.intervals))
  {
    hide Laws, Trajectory;
    var s := Segments(first, marks)[k];
    assert Connected(s);
    MotionIsWhole(g, clip, s.looped, s.start, s.intervals);
  }

  ghost predicate Composes<T(!new)>(g: Group<T>, clip: Clip<T>, s: Segment) {
    AllKnown(g, clip, s.looped, s.start, s.intervals) ==>
      Delta(g, clip, s.looped, s.start, EndOf(s.start, s.intervals))
        == Some(Motion(g, clip, s.looped, s.start, s.intervals))
  }

  /** Whatever the frames and controls of a run, the motion it hands out composes segment by segment. */
  method RunComposes<T(!new)>(track: MotionTrack, events: seq<Event>, ghost g: Group<T>, ghost clip: Clip<T>)
    requires track.Valid() && Laws(g)
    modifies track
    ensures track.Valid() && old(track.log) <= track.log
    ensures var segments := Segments(Segment(old(track.looped), old(track.sampleTime), []),
                                     Since(track.log, old(track.log)));
            forall k: nat :: k < |segments| ==> Composes(g, clip, segments[k])
  {
    hide Laws, MotionTrack.Valid, AllKnown, Trajectory, Motion, Delta, Segments, Since, Current;
    ghost var first, before := Segment(track.looped, track.sampleTime, []), track.log;
    Run(track, events);
    ghost var marks := Since(track.log, before);
    forall k: nat | k < |Segments(first, marks)| ensures Composes(g, clip, Segments(first, marks)[k]) {
      var s := Segments(first, marks)[k];
      if AllKnown(g, clip, s.looped, s.start, s.intervals) {
        SegmentMotion(g, clip, first, marks, track.looped, track.sampleTime, k);
      }
    }
  }

  /** A track that loops past its clip's end and then stops looping steps back onto the end. */
  method StepsBack() returns (interval: Option<Interval>)
    ensures interval == Some(Interval(3.0, 1.0))
  {
    var track := new MotionTrack(1.0);
    ghost var _ := track.SetRootMotionEnabled(true, true);
    ghost var _ := track.SetLooped(true);
    ghost var _ := track.Play(true);
    var _ := track.Step(3.0);
    ghost var _ := track.SetLooped(false);
    interval := track.Step(1.0);
  }
}
