/** The payload of an animation artifact: tracks of keyframes, with rotations stored normalised. */
module ArtifactAnimation {
  import opened Arithmetic
  import opened Options
  import opened ByteCodec
  import opened FloatRows
  import opened ArtifactMedia
  import opened ArtifactCollision

  const MAX_TRACKS: nat := 256
  const MAX_PATH: nat := 256
  const MAX_KEYS_PER_TRACK: nat := 65_536
  const MAX_KEYS: nat := 1_048_576
  const MAX_DURATION: real := 3_600.0
  const SMALLEST_SCALE: nat := 0x322B_CC77   // the pattern of 1e-8
  const LINEAR: nat := 1

  /** Quaternion length and normalisation happen in rounded arithmetic, and are parameters here. */
  datatype Quaternions = Quaternions(tiny: Row -> bool, normalize: Row -> Row)

  ghost predicate KeepsShape(q: Quaternions) {
    forall row: Row :: Shaped(row, 4) ==> Shaped(q.normalize(row), 4)
  }

  /** Vector keys are time, x, y, z; rotation keys time, x, y, z, w. */
  datatype Track = Track(path: seq<Byte>, modes: seq<Byte>, translation: seq<Row>, rotation: seq<Row>, scale: seq<Row>)

  datatype Animation = Animation(duration: nat, compatibility: seq<Byte>, skeleton: Option<AssetId>, tracks: seq<Track>)

  // Acceptance of keys.

  predicate TimeOk(before: seq<Row>, row: Row, duration: nat) {
    && row != [] && 0.0 <= Value(row[0]) <= Value(duration)
    && (before != [] ==> before[|before| - 1] != [] && Value(before[|before| - 1][0]) < Value(row[0]))
  }

  predicate Sizeable(x: nat) {
    Value(x) <= -Value(SMALLEST_SCALE) || Value(SMALLEST_SCALE) <= Value(x)
  }

  predicate SameSigns(a: Row, b: Row) {
    |a| == 4 && |b| == 4 && forall k: nat :: 1 <= k < 4 ==> Value(a[k]) * Value(b[k]) >= 0.0
  }

  predicate ScaleOk(before: seq<Row>, row: Row, duration: nat, mode: nat) {
    && TimeOk(before, row, duration) && |row| == 4 && (forall k: nat :: 1 <= k < 4 ==> Sizeable(row[k]))
    && (mode == LINEAR && before != [] ==> SameSigns(before[|before| - 1], row))
  }

  function AcceptVector(duration: nat): (seq<Row>, Row) -> bool {
    (before, row) => TimeOk(before, row, duration)
  }

  function AcceptScale(duration: nat, mode: nat): (seq<Row>, Row) -> bool {
    (before, row) => ScaleOk(before, row, duration, mode)
  }

  function AcceptRotation(duration: nat, q: Quaternions): (seq<Row>, Row) -> bool {
    (before, row) => TimeOk(before, row, duration) && !q.tiny(row[1..])
  }

  predicate RoomFor(total: nat, count: nat) {
    count <= MAX_KEYS_PER_TRACK && (count == 0 || total + count <= MAX_KEYS)
  }

  ghost predicate KeysOk(total: nat, rows: seq<Row>, accept: (seq<Row>, Row) -> bool) {
    RoomFor(total, |rows|) && Good(rows, accept)
  }

  function PrintKeys(rows: seq<Row>): seq<Byte> {
    Le(|rows|, 4) + PrintAll(PrintRow, rows)
  }

  /** Reads one counted list of keys. */
  method ReadKeys(bytes: seq<Byte>, offset: nat, total: nat, width: nat, accept: (seq<Row>, Row) -> bool,
                  ghost e: seq<Row>, ghost rest: seq<Byte>)
    returns (r: Read<seq<Row>>)
    requires offset <= |bytes|
    ensures r.Ok? ==> ShapedRows(r.value, width) && KeysOk(total, r.value, accept)
                      && Starts(bytes, offset, PrintKeys(r.value))
                      && r.next == offset + |PrintKeys(r.value)| <= |bytes|
    ensures |e| < Pow256(4) && ShapedRows(e, width) && Starts(bytes, offset, PrintKeys(e) + rest) ==>
              r == (if KeysOk(total, e, accept) then Ok(e, offset + |PrintKeys(e)|) else Bad)
              && Starts(bytes, offset + |PrintKeys(e)|, rest)
  {
    hide Starts, Le, Pow256, PrintAll, PrintRow, Good, ShapedRows;
    StartsSplit(bytes, offset, PrintKeys(e), rest);
    StartsSplit(bytes, offset, Le(|e|, 4), PrintAll(PrintRow, e));
    var count := ReadField(bytes, offset, 4, |e|, PrintAll(PrintRow, e));
    if count.Bad? || !RoomFor(total, count.value) {
      return Bad;
    }
    var rows := ReadRows(bytes, count.next, count.value, width, accept, e);
    if rows.Bad? {
      return Bad;
    }
    StartsSplit(bytes, offset, Le(count.value, 4), PrintAll(PrintRow, rows.value));
    return rows;
  }

  method AppendKeys(out: seq<Byte>, total: nat, rows: seq<Row>, accept: (seq<Row>, Row) -> bool)
    returns (r: Option<seq<Byte>>)
    ensures r.Some? <==> KeysOk(total, rows, accept)
    ensures r.Some? ==> r.value == out + PrintKeys(rows)
  {
    hide Le, PrintAll, PrintRow, Good;
    if |rows| > MAX_KEYS_PER_TRACK || |rows| > MAX_KEYS - (if total < MAX_KEYS then total else MAX_KEYS) {
      return None;
    }
    var bytes := AppendWord(out, |rows|, 4);
    var ok;
    ok, bytes := AppendRows(bytes, rows, accept, true);
    if !ok {
      return None;
    }
    Append2(out, Le(|rows|, 4), PrintAll(PrintRow, rows));
    return Some(bytes);
  }

  /** Accepted keys stand in strictly rising order of time within the clip, from the first to the last. */
  lemma KeysRise(rows: seq<Row>, duration: nat)
    ensures Good(rows, AcceptVector(duration)) <==>
            && (forall k: nat :: k < |rows| ==>
                  FiniteRow(rows[k]) && rows[k] != [] && 0.0 <= Value(rows[k][0]) <= Value(duration))
            && (forall j: nat, k: nat :: j < k < |rows| && rows[j] != [] && rows[k] != [] ==>
                  Value(rows[j][0]) < Value(rows[k][0]))
  {
    hide Value, FiniteRow;
    var accept := AcceptVector(duration);
    forall k: nat | k < |rows| ensures accept(rows[..k], rows[k]) <==>
      rows[k] != [] && 0.0 <= Value(rows[k][0]) <= Value(duration)
      && (k > 0 ==> rows[k - 1] != [] && Value(rows[k - 1][0]) < Value(rows[k][0])) {
      assert k > 0 ==> rows[..k][|rows[..k]| - 1] == rows[k - 1];
    }
    if Good(rows, accept) {
      assert forall k: nat :: k < |rows| ==> accept(rows[..k], rows[k]);
      forall j: nat, k: nat | j < k < |rows| && rows[j] != [] && rows[k] != []
        ensures Value(rows[j][0]) < Value(rows[k][0]) {
        RisingPair(rows, j, k);
      }
    }
  }

  lemma {:induction false} RisingPair(rows: seq<Row>, j: nat, k: nat)
    requires j < k < |rows| && forall i: nat :: i < |rows| ==> rows[i] != []
    requires forall i: nat :: 0 < i < |rows| ==> Value(rows[i - 1][0]) < Value(rows[i][0])
    ensures Value(rows[j][0]) < Value(rows[k][0])
  {
    hide Value;
    if j + 1 < k {
      RisingPair(rows, j, k - 1);
    }
  }

  /** Rotation keys rise in time too, and none of them is too short to normalise. */
  lemma RotationKeysRise(rows: seq<Row>, duration: nat, q: Quaternions)
    ensures Good(rows, AcceptRotation(duration, q)) <==>
            Good(rows, AcceptVector(duration)) && forall k: nat :: k < |rows| ==> rows[k] != [] && !q.tiny(rows[k][1..])
  {
    hide Value, FiniteRow;
    forall k: nat | k < |rows| ensures AcceptRotation(duration, q)(rows[..k], rows[k]) <==>
      AcceptVector(duration)(rows[..k], rows[k]) && rows[k] != [] && !q.tiny(rows[k][1..]) {}
  }

  /** No axis is scaled to almost nothing. */
  ghost predicate Scaling(rows: seq<Row>) {
    forall k: nat, a: nat :: k < |rows| && 1 <= a < |rows[k]| ==>
      Value(rows[k][a]) <= -Value(SMALLEST_SCALE) || Value(rows[k][a]) >= Value(SMALLEST_SCALE)
  }

  /** No axis changes its sign from one key to the next. */
  ghost predicate SignsKept(rows: seq<Row>) {
    forall j: nat, k: nat, a: nat :: j + 1 == k < |rows| && 1 <= a < |rows[j]| && a < |rows[k]| ==>
      Value(rows[j][a]) * Value(rows[k][a]) >= 0.0
  }

  lemma ScaleAccepted(rows: seq<Row>, duration: nat, mode: nat, k: nat)
    requires k < |rows| && forall i: nat :: i < |rows| ==> |rows[i]| == 4
    ensures AcceptScale(duration, mode)(rows[..k], rows[k]) <==>
            && AcceptVector(duration)(rows[..k], rows[k])
            && (forall a: nat :: 1 <= a < 4 ==> Sizeable(rows[k][a]))
            && (mode == LINEAR && k > 0 ==> SameSigns(rows[k - 1], rows[k]))
  {
    hide Value;
    assert k > 0 ==> rows[..k][|rows[..k]| - 1] == rows[k - 1];
  }

  /** Scale keys rise in time too, keep their size, and keep their signs while they are interpolated. */
  lemma ScaleKeysRise(rows: seq<Row>, duration: nat, mode: nat)
    requires forall i: nat :: i < |rows| ==> |rows[i]| == 4
    ensures Good(rows, AcceptScale(duration, mode)) <==>
            Good(rows, AcceptVector(duration)) && Scaling(rows) && (mode == LINEAR ==> SignsKept(rows))
  {
    hide Value, FiniteRow, TimeOk;
    var scale, plain := AcceptScale(duration, mode), AcceptVector(duration);
    forall k: nat | k < |rows| ensures scale(rows[..k], rows[k]) <==>
      && plain(rows[..k], rows[k]) && (forall a: nat :: 1 <= a < 4 ==> Sizeable(rows[k][a]))
      && (mode == LINEAR && k > 0 ==> SameSigns(rows[k - 1], rows[k])) {
      ScaleAccepted(rows, duration, mode, k);
    }
    if Good(rows, scale) {
      forall k: nat, a: nat | k < |rows| && 1 <= a < |rows[k]| ensures Sizeable(rows[k][a]) {
        assert scale(rows[..k], rows[k]);
      }
      forall j: nat, k: nat | mode == LINEAR && j + 1 == k < |rows| ensures SameSigns(rows[j], rows[k]) {
        assert scale(rows[..k], rows[k]);
      }
    }
    if Good(rows, plain) && Scaling(rows) && (mode == LINEAR ==> SignsKept(rows)) {
      forall k: nat | k < |rows| ensures FiniteRow(rows[k]) && scale(rows[..k], rows[k]) {
        assert plain(rows[..k], rows[k]);
        assert mode == LINEAR && k > 0 ==> SameSigns(rows[k - 1], rows[k]);
      }
    }
  }

  // Rotations are written normalised.

  function Unit(q: Quaternions, row: Row): Row {
    if row == [] then [] else [row[0]] + q.normalize(row[1..])
  }

  function UnitRows(q: Quaternions, rows: seq<Row>): (r: seq<Row>)
    ensures |r| == |rows|
  {
    seq(|rows|, i requires 0 <= i < |rows| => Unit(q, rows[i]))
  }

  lemma UnitShaped(q: Quaternions, rows: seq<Row>)
    requires KeepsShape(q) && ShapedRows(rows, 5)
    ensures ShapedRows(UnitRows(q, rows), 5)
  {
    forall k: nat | k < |rows| ensures Shaped(UnitRows(q, rows)[k], 5) {
      var row := rows[k];
      assert Shaped(row[1..], 4);
      assert Shaped(q.normalize(row[1..]), 4);
    }
  }

  method AppendRotations(out: seq<Byte>, total: nat, rows: seq<Row>, accept: (seq<Row>, Row) -> bool, q: Quaternions)
    returns (r: Option<seq<Byte>>)
    ensures r.Some? <==> KeysOk(total, rows, accept)
    ensures r.Some? ==> r.value == out + PrintKeys(UnitRows(q, rows))
  {
    hide Le, PrintRow;
    if |rows| > MAX_KEYS_PER_TRACK || |rows| > MAX_KEYS - (if total < MAX_KEYS then total else MAX_KEYS) {
      return None;
    }
    var bytes := AppendWord(out, |rows|, 4);
    ghost var front, units := bytes, UnitRows(q, rows);
    for k: nat := 0 to |rows|
      invariant Good(rows[..k], accept) && bytes == front + PrintAll(PrintRow, units[..k])
    {
      hide PrintAll, FiniteRow, Good;
      GoodStep(rows, k, accept);
      GoodMore(rows[..k], rows[k], accept);
      if !(FiniteRow(rows[k]) && accept(rows[..k], rows[k])) {
        return None;
      }
      assert units[..k + 1] == units[..k] + [units[k]];
      PrintAllNext(PrintRow, units[..k], units[k]);
      bytes := AppendRow(bytes, Unit(q, rows[k]));
      Append2(front, PrintAll(PrintRow, units[..k]), PrintRow(units[k]));
    }
    assert rows[..|rows|] == rows && units[..|rows|] == units;
    Append2(out, Le(|rows|, 4), PrintAll(PrintRow, units));
    return Some(bytes);
  }

  // Tracks.

  predicate TrackTyped(t: Track) {
    && |t.modes| == 3 && ShapedRows(t.translation, 4) && ShapedRows(t.rotation, 5) && ShapedRows(t.scale, 4)
  }

  function TrackKeys(t: Track): nat {
    |t.translation| + |t.rotation| + |t.scale|
  }

  function TotalKeys(tracks: seq<Track>): nat {
    if tracks == [] then 0 else TotalKeys(tracks[..|tracks| - 1]) + TrackKeys(tracks[|tracks| - 1])
  }

  predicate PathOk(path: seq<Byte>) {
    0 < |path| <= MAX_PATH
  }

  predicate NewPath(before: seq<Track>, path: seq<Byte>) {
    forall k: nat :: k < |before| ==> before[k].path != path
  }

  predicate ModesOk(modes: seq<Byte>) {
    |modes| == 3 && modes[0] <= LINEAR && modes[1] <= LINEAR && modes[2] <= LINEAR
  }

  /** The three key lists, counted into the running total one after another. */
  ghost predicate ChannelsOk(t: Track, total: nat, duration: nat, q: Quaternions) {
    && |t.modes| == 3
    && KeysOk(total, t.translation, AcceptVector(duration))
    && KeysOk(total + |t.translation|, t.rotation, AcceptRotation(duration, q))
    && KeysOk(total + |t.translation| + |t.rotation|, t.scale, AcceptScale(duration, t.modes[2]))
    && TrackKeys(t) > 0
  }

  ghost predicate TrackOk(before: seq<Track>, t: Track, duration: nat, q: Quaternions) {
    PathOk(t.path) && NewPath(before, t.path) && ModesOk(t.modes) && ChannelsOk(t, TotalKeys(before), duration, q)
  }

  function PrintChannels(t: Track): seq<Byte> {
    PrintKeys(t.translation) + (PrintKeys(t.rotation) + PrintKeys(t.scale))
  }

  function PrintTrack(t: Track): seq<Byte> {
    Le(|t.path|, 2) + (t.path + (t.modes + PrintChannels(t)))
  }

  function Stored(q: Quaternions, t: Track): Track {
    t.(rotation := UnitRows(q, t.rotation))
  }

  predicate CountsTyped(t: Track) {
    |t.translation| < Pow256(4) && |t.rotation| < Pow256(4) && |t.scale| < Pow256(4)
  }

  method ReadChannels(bytes: seq<Byte>, offset: nat, path: seq<Byte>, modes: seq<Byte>, total: nat, duration: nat,
                      q: Quaternions, ghost e: Track)
    returns (r: Read<Track>)
    requires offset <= |bytes| && |modes| == 3
    ensures r.Ok? ==> r.value.path == path && r.value.modes == modes && TrackTyped(r.value)
                      && ChannelsOk(r.value, total, duration, q)
                      && Starts(bytes, offset, PrintChannels(r.value))
                         && r.next == offset + |PrintChannels(r.value)| <= |bytes|
    ensures TrackTyped(e) && CountsTyped(e) && e.path == path && e.modes == modes
            && Starts(bytes, offset, PrintChannels(e)) ==>
              r == if ChannelsOk(e, total, duration, q) then Ok(e, offset + |PrintChannels(e)|) else Bad
  {
    hide Starts, Le, Pow256, PrintKeys, Good, ShapedRows, AcceptVector, AcceptRotation, AcceptScale, RoomFor;
    ghost var b, c := PrintKeys(e.rotation), PrintKeys(e.scale);
    var translation := ReadKeys(bytes, offset, total, 4, AcceptVector(duration), e.translation, b + c);
    if translation.Bad? {
      return Bad;
    }
    var sum := total + |translation.value|;
    var rotation := ReadKeys(bytes, translation.next, sum, 5, AcceptRotation(duration, q), e.rotation, c);
    if rotation.Bad? {
      return Bad;
    }
    NoRest(c);
    var scale := ReadKeys(bytes, rotation.next, sum + |rotation.value|, 4, AcceptScale(duration, modes[2]), e.scale,
                          []);
    if scale.Bad? || (translation.value == [] && rotation.value == [] && scale.value == []) {
      return Bad;
    }
    var t := Track(path, modes, translation.value, rotation.value, scale.value);
    ChannelsJoin(bytes, offset, t);
    return Ok(t, scale.next);
  }

  lemma ChannelsJoin(bytes: seq<Byte>, offset: nat, t: Track)
    requires Starts(bytes, offset, PrintKeys(t.translation))
    requires Starts(bytes, offset + |PrintKeys(t.translation)|, PrintKeys(t.rotation))
    requires Starts(bytes, offset + |PrintKeys(t.translation)| + |PrintKeys(t.rotation)|, PrintKeys(t.scale))
    ensures Starts(bytes, offset, PrintChannels(t))
    ensures |PrintChannels(t)| == |PrintKeys(t.translation)| + |PrintKeys(t.rotation)| + |PrintKeys(t.scale)|
  {
    hide PrintKeys;
    var a, b, c := PrintKeys(t.translation), PrintKeys(t.rotation), PrintKeys(t.scale);
    StartsSplit(bytes, offset + |a|, b, c);
    StartsSplit(bytes, offset, a, b + c);
  }

  /** Reads a byte string whose length is already known. */
  lemma SliceStarts(bytes: seq<Byte>, offset: nat, n: nat, e: seq<Byte>, rest: seq<Byte>)
    requires offset + n <= |bytes|
    ensures Starts(bytes, offset, bytes[offset..offset + n])
    ensures |e| == n && Starts(bytes, offset, e + rest) ==>
            bytes[offset..offset + n] == e && Starts(bytes, offset + n, rest)
  {
    StartsSplit(bytes, offset, e, rest);
  }

  method ReadTrack(bytes: seq<Byte>, offset: nat, before: seq<Track>, total: nat, duration: nat, q: Quaternions,
                   ghost e: Track)
    returns (r: Read<Track>)
    requires offset <= |bytes| && total == TotalKeys(before)
    ensures r.Ok? ==> TrackTyped(r.value) && TrackOk(before, r.value, duration, q)
                      && Starts(bytes, offset, PrintTrack(r.value))
                      && r.next == offset + |PrintTrack(r.value)| <= |bytes|
    ensures TrackTyped(e) && CountsTyped(e) && |e.path| < Pow256(2) && Starts(bytes, offset, PrintTrack(e)) ==>
              r == if TrackOk(before, e, duration, q) then Ok(e, offset + |PrintTrack(e)|) else Bad
  {
    hide Starts, Le, Pow256, PrintChannels, ChannelsOk, TotalKeys, NewPath, ShapedRows;
    ghost var expected := TrackTyped(e) && CountsTyped(e) && |e.path| < Pow256(2)
                          && Starts(bytes, offset, PrintTrack(e));
    ghost var tail := e.modes + PrintChannels(e);
    var size := ReadField(bytes, offset, 2, |e.path|, e.path + tail);
    if size.Bad? {
      return Bad;
    }
    var n, at := size.value, size.next;
    if expected {
      PieceFits(bytes, at, e.path, tail);
    }
    if n == 0 || n > MAX_PATH || at + n > |bytes| {
      return Bad;
    }
    SliceStarts(bytes, at, n, e.path, tail);
    var path := bytes[at..at + n];
    var next := at + n;
    if expected {
      PieceFits(bytes, next, e.modes, PrintChannels(e));
    }
    if !NewPath(before, path) || |bytes| - next < 3 {
      return Bad;
    }
    SliceStarts(bytes, next, 3, e.modes, PrintChannels(e));
    var modes := bytes[next..next + 3];
    if !ModesOk(modes) {
      return Bad;
    }
    r := ReadChannels(bytes, next + 3, path, modes, total, duration, q, e);
    if r.Ok? {
      TrackJoin(bytes, offset, r.value);
    }
  }

  lemma PieceFits(bytes: seq<Byte>, offset: nat, s: seq<Byte>, rest: seq<Byte>)
    requires Starts(bytes, offset, s + rest)
    ensures offset + |s| <= |bytes|
  {}

  lemma TrackJoin(bytes: seq<Byte>, offset: nat, t: Track)
    requires |t.modes| == 3 && Starts(bytes, offset, Le(|t.path|, 2)) && Starts(bytes, offset + 2, t.path)
    requires Starts(bytes, offset + 2 + |t.path|, t.modes) && Starts(bytes, offset + 2 + |t.path| + 3, PrintChannels(t))
    ensures Starts(bytes, offset, PrintTrack(t)) && |PrintTrack(t)| == 2 + |t.path| + 3 + |PrintChannels(t)|
  {
    hide PrintChannels;
    var c := PrintChannels(t);
    StartsSplit(bytes, offset + 2 + |t.path|, t.modes, c);
    StartsSplit(bytes, offset + 2, t.path, t.modes + c);
    StartsSplit(bytes, offset, Le(|t.path|, 2), t.path + (t.modes + c));
  }

  method AppendTrack(out: seq<Byte>, before: seq<Track>, total: nat, t: Track, duration: nat, q: Quaternions)
    returns (r: Option<seq<Byte>>)
    requires total == TotalKeys(before) && |t.modes| == 3
    ensures r.Some? <==> TrackOk(before, t, duration, q)
    ensures r.Some? ==> r.value == out + PrintTrack(Stored(q, t))
  {
    hide Le, KeysOk, PrintKeys, TotalKeys, NewPath;
    if |t.path| == 0 || |t.path| > MAX_PATH || !NewPath(before, t.path) {
      return None;
    }
    var bytes := AppendWord(out, |t.path|, 2);
    bytes := bytes + t.path;
    if t.modes[0] > LINEAR || t.modes[1] > LINEAR || t.modes[2] > LINEAR {
      return None;
    }
    bytes := bytes + t.modes;
    ghost var front := bytes;
    var step := AppendKeys(bytes, total, t.translation, AcceptVector(duration));
    if step.None? {
      return None;
    }
    step := AppendRotations(step.value, total + |t.translation|, t.rotation, AcceptRotation(duration, q), q);
    if step.None? {
      return None;
    }
    step := AppendKeys(step.value, total + |t.translation| + |t.rotation|, t.scale, AcceptScale(duration, t.modes[2]));
    if step.None? || (t.translation == [] && t.rotation == [] && t.scale == []) {
      return None;
    }
    ghost var u := Stored(q, t);
    Append3(front, PrintKeys(u.translation), PrintKeys(u.rotation), PrintKeys(u.scale));
    Append4(out, Le(|u.path|, 2), u.path, u.modes, PrintChannels(u));
    return step;
  }

  ghost predicate TracksOk(tracks: seq<Track>, duration: nat, q: Quaternions) {
    forall k: nat :: k < |tracks| ==> TrackOk(tracks[..k], tracks[k], duration, q)
  }

  lemma TracksStep(tracks: seq<Track>, k: nat, duration: nat, q: Quaternions)
    requires k < |tracks|
    ensures tracks[..k + 1] == tracks[..k] + [tracks[k]]
    ensures TracksOk(tracks, duration, q) ==> TrackOk(tracks[..k], tracks[k], duration, q)
    ensures TotalKeys(tracks[..k + 1]) == TotalKeys(tracks[..k]) + TrackKeys(tracks[k])
  {
    hide TrackOk;
    assert tracks[..k + 1][..k] == tracks[..k];
  }

  lemma TracksMore(tracks: seq<Track>, t: Track, duration: nat, q: Quaternions)
    ensures TracksOk(tracks + [t], duration, q) <==> TracksOk(tracks, duration, q) && TrackOk(tracks, t, duration, q)
    ensures TotalKeys(tracks + [t]) == TotalKeys(tracks) + TrackKeys(t)
  {
    hide TrackOk;
    var more := tracks + [t];
    assert more[..|tracks|] == tracks && more[|tracks|] == t;
    forall k: nat | k < |tracks| ensures more[..k] == tracks[..k] && more[k] == tracks[k] {}
  }

  function StoredAll(q: Quaternions, tracks: seq<Track>): (r: seq<Track>)
    ensures |r| == |tracks|
  {
    seq(|tracks|, i requires 0 <= i < |tracks| => Stored(q, tracks[i]))
  }

  predicate TracksTyped(tracks: seq<Track>) {
    forall k: nat :: k < |tracks| ==> TrackTyped(tracks[k])
  }

  lemma ThreeModes(tracks: seq<Track>, k: nat)
    requires TracksTyped(tracks) && k < |tracks|
    ensures |tracks[k].modes| == 3
  {}

  /** The first `k` tracks are acceptable, counted and appended. */
  ghost predicate Appended(out: seq<Byte>, tracks: seq<Track>, duration: nat, q: Quaternions, k: nat,
                           bytes: seq<Byte>, total: nat)
    requires k <= |tracks|
  {
    && TracksOk(tracks[..k], duration, q) && total == TotalKeys(tracks[..k])
    && bytes == out + PrintAll(PrintTrack, StoredAll(q, tracks)[..k])
  }

  lemma AppendedNone(out: seq<Byte>, tracks: seq<Track>, duration: nat, q: Quaternions)
    ensures Appended(out, tracks, duration, q, 0, out, 0)
  {}

  lemma AppendedOne(out: seq<Byte>, tracks: seq<Track>, duration: nat, q: Quaternions, k: nat, bytes: seq<Byte>,
                    total: nat)
    requires k < |tracks| && Appended(out, tracks, duration, q, k, bytes, total)
             && TrackOk(tracks[..k], tracks[k], duration, q)
    ensures Appended(out, tracks, duration, q, k + 1, bytes + PrintTrack(Stored(q, tracks[k])),
                     total + TrackKeys(tracks[k]))
  {
    TracksStep(tracks, k, duration, q);
    TracksMore(tracks[..k], tracks[k], duration, q);
    hide TracksOk, TotalKeys, PrintTrack, TrackKeys, TrackOk;
    PrintMore(out, StoredAll(q, tracks), k);
  }

  lemma PrintMore(out: seq<Byte>, units: seq<Track>, k: nat)
    requires k < |units|
    ensures out + PrintAll(PrintTrack, units[..k]) + PrintTrack(units[k]) == out + PrintAll(PrintTrack, units[..k + 1])
  {
    hide PrintTrack;
    assert units[..k + 1] == units[..k] + [units[k]];
    PrintAllNext(PrintTrack, units[..k], units[k]);
    hide PrintAll;
    Append2(out, PrintAll(PrintTrack, units[..k]), PrintTrack(units[k]));
  }

  lemma AppendedAll(out: seq<Byte>, tracks: seq<Track>, duration: nat, q: Quaternions, bytes: seq<Byte>, total: nat)
    requires Appended(out, tracks, duration, q, |tracks|, bytes, total)
    ensures TracksOk(tracks, duration, q) && bytes == out + PrintAll(PrintTrack, StoredAll(q, tracks))
  {
    hide TrackOk, PrintAll;
    assert tracks[..|tracks|] == tracks && StoredAll(q, tracks)[..|tracks|] == StoredAll(q, tracks);
  }

  lemma AppendedTotal(out: seq<Byte>, tracks: seq<Track>, duration: nat, q: Quaternions, k: nat, bytes: seq<Byte>,
                      total: nat)
    requires k < |tracks| && Appended(out, tracks, duration, q, k, bytes, total)
    ensures total == TotalKeys(tracks[..k])
    ensures TracksOk(tracks, duration, q) ==> TrackOk(tracks[..k], tracks[k], duration, q)
  {}

  method AppendTracks(out: seq<Byte>, tracks: seq<Track>, duration: nat, q: Quaternions) returns (r: Option<seq<Byte>>)
    requires TracksTyped(tracks)
    ensures r.Some? <==> TracksOk(tracks, duration, q)
    ensures r.Some? ==> r.value == out + PrintAll(PrintTrack, StoredAll(q, tracks))
  {
    hide *;
    var bytes, total: nat := out, 0;
    AppendedNone(out, tracks, duration, q);
    for k: nat := 0 to |tracks|
      invariant Appended(out, tracks, duration, q, k, bytes, total)
    {
      AppendedTotal(out, tracks, duration, q, k, bytes, total);
      ThreeModes(tracks, k);
      var step := AppendTrack(bytes, tracks[..k], total, tracks[k], duration, q);
      if step.None? {
        return None;
      }
      AppendedOne(out, tracks, duration, q, k, bytes, total);
      bytes, total := step.value, total + TrackKeys(tracks[k]);
    }
    AppendedAll(out, tracks, duration, q, bytes, total);
    return Some(bytes);
  }

  predicate Printable(t: Track) {
    TrackTyped(t) && CountsTyped(t) && |t.path| < Pow256(2)
  }

  predicate AllPrintable(tracks: seq<Track>) {
    forall k: nat :: k < |tracks| ==> Printable(tracks[k])
  }

  ghost predicate TracksWritten(bytes: seq<Byte>, offset: nat, count: nat, e: seq<Track>) {
    |e| == count && AllPrintable(e) && Starts(bytes, offset, PrintAll(PrintTrack, e))
  }

  lemma TrackStands(bytes: seq<Byte>, offset: nat, count: nat, e: seq<Track>, k: nat)
    requires TracksWritten(bytes, offset, count, e) && k < count
    ensures TrackTyped(e[k]) && CountsTyped(e[k]) && |e[k].path| < Pow256(2)
    ensures Starts(bytes, offset + |PrintAll(PrintTrack, e[..k])|, PrintTrack(e[k]))
  {
    assert Printable(e[k]);
    ElementStarts(bytes, offset, PrintTrack, e, k);
  }

  lemma TrackIsPrintable(before: seq<Track>, t: Track, duration: nat, q: Quaternions)
    requires TrackTyped(t) && TrackOk(before, t, duration, q)
    ensures Printable(t)
  {
    FourBytes();
  }

  /** The first `k` tracks have been read, up to `next`. */
  ghost predicate ReadSoFar(bytes: seq<Byte>, offset: nat, duration: nat, q: Quaternions, k: nat, tracks: seq<Track>,
                            next: nat, total: nat) {
    && TracksWritten(bytes, offset, k, tracks) && TracksOk(tracks, duration, q) && total == TotalKeys(tracks)
    && next == offset + |PrintAll(PrintTrack, tracks)| <= |bytes|
  }

  lemma ReadNothing(bytes: seq<Byte>, offset: nat, duration: nat, q: Quaternions)
    requires offset <= |bytes|
    ensures ReadSoFar(bytes, offset, duration, q, 0, [], offset, 0)
  {}

  lemma ReadOneMore(bytes: seq<Byte>, offset: nat, duration: nat, q: Quaternions, k: nat, tracks: seq<Track>,
                    next: nat, total: nat, t: Track)
    requires ReadSoFar(bytes, offset, duration, q, k, tracks, next, total) && TrackTyped(t)
             && TrackOk(tracks, t, duration, q)
    requires Starts(bytes, next, PrintTrack(t)) && next + |PrintTrack(t)| <= |bytes|
    ensures ReadSoFar(bytes, offset, duration, q, k + 1, tracks + [t], next + |PrintTrack(t)|, total + TrackKeys(t))
  {
    hide TrackOk, PrintTrack, PrintAll, TracksOk, TotalKeys, TrackKeys, Printable, Starts, TrackTyped, AllPrintable;
    TrackIsPrintable(tracks, t, duration, q);
    PrintableMore(tracks, t);
    TracksMore(tracks, t, duration, q);
    ListGrows(bytes, offset, PrintTrack, tracks, t);
  }

  lemma PrintableMore(tracks: seq<Track>, t: Track)
    requires AllPrintable(tracks) && Printable(t)
    ensures AllPrintable(tracks + [t])
  {
    hide Printable;
  }

  lemma ReadTotal(bytes: seq<Byte>, offset: nat, duration: nat, q: Quaternions, k: nat, tracks: seq<Track>, next: nat,
                  total: nat)
    requires ReadSoFar(bytes, offset, duration, q, k, tracks, next, total)
    ensures total == TotalKeys(tracks) && TracksOk(tracks, duration, q) && TracksWritten(bytes, offset, k, tracks)
    ensures next == offset + |PrintAll(PrintTrack, tracks)| <= |bytes|
  {}

  lemma NextDue(bytes: seq<Byte>, offset: nat, count: nat, e: seq<Track>, k: nat, duration: nat, q: Quaternions)
    requires TracksWritten(bytes, offset, count, e) && k < count
    ensures |e| == count && e[..k + 1] == e[..k] + [e[k]]
    ensures TrackTyped(e[k]) && CountsTyped(e[k]) && |e[k].path| < Pow256(2)
    ensures Starts(bytes, offset + |PrintAll(PrintTrack, e[..k])|, PrintTrack(e[k]))
    ensures TracksOk(e, duration, q) ==> TrackOk(e[..k], e[k], duration, q)
  {
    TrackStands(bytes, offset, count, e, k);
    TracksStep(e, k, duration, q);
  }

  lemma AllRead(bytes: seq<Byte>, offset: nat, count: nat, e: seq<Track>)
    ensures TracksWritten(bytes, offset, count, e) ==> |e| == count && e[..count] == e
  {}

  method ReadTracks(bytes: seq<Byte>, offset: nat, count: nat, duration: nat, q: Quaternions, ghost e: seq<Track>)
    returns (r: Read<seq<Track>>)
    requires offset <= |bytes|
    ensures r.Ok? ==> TracksOk(r.value, duration, q) && TracksWritten(bytes, offset, count, r.value)
                      && r.next == offset + |PrintAll(PrintTrack, r.value)| <= |bytes|
    ensures TracksWritten(bytes, offset, count, e) ==>
              r == if TracksOk(e, duration, q) then Ok(e, offset + |PrintAll(PrintTrack, e)|) else Bad
  {
    hide *;
    var tracks: seq<Track>, next, total: nat := [], offset, 0;
    ghost var expected := TracksWritten(bytes, offset, count, e);
    ReadNothing(bytes, offset, duration, q);
    AllRead(bytes, offset, count, e);
    for k: nat := 0 to count
      invariant ReadSoFar(bytes, offset, duration, q, k, tracks, next, total)
      invariant expected ==> tracks == e[..k]
    {
      ReadTotal(bytes, offset, duration, q, k, tracks, next, total);
      ghost var due := if expected then e[k] else Track([], [], [], [], []);
      if expected {
        NextDue(bytes, offset, count, e, k, duration, q);
      }
      var track := ReadTrack(bytes, next, tracks, total, duration, q, due);
      if track.Bad? {
        return Bad;
      }
      ReadOneMore(bytes, offset, duration, q, k, tracks, next, total, track.value);
      tracks, next, total := tracks + [track.value], track.next, total + TrackKeys(track.value);
    }
    ReadTotal(bytes, offset, duration, q, count, tracks, next, total);
    return Ok(tracks, next);
  }

  // Animations.

  predicate ContentIdOk(id: seq<Byte>) {
    exists k: nat :: k < |id| && id[k] != 0
  }

  predicate DurationOk(duration: nat) {
    Finite(duration) && 0.0 < Value(duration) <= MAX_DURATION
  }

  predicate AnimationTyped(v: Animation) {
    v.duration < Pow256(4) && |v.compatibility| == 32 && ReferenceTyped(v.skeleton) && TracksTyped(v.tracks)
  }

  predicate HeadOk(v: Animation) {
    && DurationOk(v.duration) && ContentIdOk(v.compatibility)
    && v.skeleton.Some? && IdOk(v.skeleton.value) && 0 < |v.tracks| <= MAX_TRACKS
  }

  ghost predicate AnimationOk(v: Animation, q: Quaternions) {
    HeadOk(v) && TracksOk(v.tracks, v.duration, q)
  }

  function PrintAnimation(v: Animation): seq<Byte>
    requires v.skeleton.Some?
  {
    Le(v.duration, 4) + (v.compatibility
                         + (PrintId(v.skeleton.value) + (Le(|v.tracks|, 4) + PrintAll(PrintTrack, v.tracks))))
  }

  function Normalized(v: Animation, q: Quaternions): Animation {
    v.(tracks := StoredAll(q, v.tracks))
  }

  method EncodeAnimation(out: seq<Byte>, v: Animation, q: Quaternions) returns (r: Option<seq<Byte>>)
    requires AnimationTyped(v)
    ensures r.Some? <==> AnimationOk(v, q)
    ensures r.Some? ==> r.value == out + PrintAnimation(Normalized(v, q))
  {
    hide Le, PrintAll, PrintId, TracksOk, StoredAll, ContentIdOk, Value, Finite;
    if !Finite(v.duration) || Value(v.duration) <= 0.0 || Value(v.duration) > MAX_DURATION
       || !ContentIdOk(v.compatibility) || v.skeleton.None?
       || (v.skeleton.value.high == 0 && v.skeleton.value.low == 0) || |v.tracks| == 0 || |v.tracks| > MAX_TRACKS {
      return None;
    }
    var bytes := AppendWord(out, v.duration, 4);
    bytes := bytes + v.compatibility;
    bytes := AppendId(bytes, v.skeleton.value);
    bytes := AppendWord(bytes, |v.tracks|, 4);
    r := AppendTracks(bytes, v.tracks, v.duration, q);
    Append5(out, Le(v.duration, 4), v.compatibility, PrintId(v.skeleton.value), Le(|v.tracks|, 4),
            PrintAll(PrintTrack, StoredAll(q, v.tracks)));
  }

  ghost predicate AnimationPrintable(v: Animation) {
    AnimationTyped(v) && v.skeleton.Some? && |v.tracks| < Pow256(4) && AllPrintable(v.tracks)
  }

  /** Reads the tracks as stored, before their rotations are normalised again. */
  method DecodeStored(bytes: seq<Byte>, offset: nat, q: Quaternions, ghost e: Animation) returns (r: Option<Animation>)
    requires offset <= |bytes|
    ensures r.Some? ==> AnimationPrintable(r.value) && AnimationOk(r.value, q)
                        && bytes[offset..] == PrintAnimation(r.value)
    ensures AnimationPrintable(e) && bytes[offset..] == PrintAnimation(e) ==>
            r == if AnimationOk(e, q) then Some(e) else None
  {
    hide Starts, Le, Pow256, PrintAll, PrintId, TracksOk, DurationOk, ContentIdOk, IdTyped, AllPrintable, TracksTyped;
    ghost var id := if e.skeleton.Some? then e.skeleton.value else AssetId(0, 0);
    ghost var expected := AnimationPrintable(e) && bytes[offset..] == PrintAnimation(e);
    ghost var tracks := PrintAll(PrintTrack, e.tracks);
    ghost var tail := PrintId(id) + (Le(|e.tracks|, 4) + tracks);
    if expected {
      WholeRest(bytes, offset, PrintAnimation(e));
      IdLength(id);
      assert |PrintAnimation(e)| == 56 + |tracks|;
    }
    var duration := ReadField(bytes, offset, 4, e.duration, e.compatibility + tail);
    if duration.Bad? {
      return None;
    }
    var at := duration.next;
    if expected {
      PieceFits(bytes, at, e.compatibility, tail);
    }
    if !DurationOk(duration.value) || |bytes| - at < 32 {
      return None;
    }
    SliceStarts(bytes, at, 32, e.compatibility, tail);
    var compatibility := bytes[at..at + 32];
    var skeleton := ReadId(bytes, at + 32, id, Le(|e.tracks|, 4) + tracks);
    if skeleton.Bad? {
      return None;
    }
    var count := ReadField(bytes, skeleton.next, 4, |e.tracks|, tracks);
    if count.Bad? || !ContentIdOk(compatibility) || count.value == 0 || count.value > MAX_TRACKS {
      return None;
    }
    assert expected ==> duration.value == e.duration && compatibility == e.compatibility && skeleton.value == id
                        && count.value == |e.tracks|;
    var all := ReadTracks(bytes, count.next, count.value, duration.value, q, e.tracks);
    if all.Bad? || all.next != |bytes| {
      return None;
    }
    var v := Animation(duration.value, compatibility, Some(skeleton.value), all.value);
    PrintableTyped(all.value);
    AnimationJoin(bytes, offset, v);
    return Some(v);
  }

  lemma PrintableTyped(tracks: seq<Track>)
    requires AllPrintable(tracks)
    ensures TracksTyped(tracks)
  {}

  lemma AnimationJoin(bytes: seq<Byte>, offset: nat, v: Animation)
    requires v.skeleton.Some? && |v.compatibility| == 32 && Starts(bytes, offset, Le(v.duration, 4))
             && Starts(bytes, offset + 4, v.compatibility)
    requires Starts(bytes, offset + 36, PrintId(v.skeleton.value)) && Starts(bytes, offset + 52, Le(|v.tracks|, 4))
    requires Starts(bytes, offset + 56, PrintAll(PrintTrack, v.tracks))
             && offset + 56 + |PrintAll(PrintTrack, v.tracks)| == |bytes|
    ensures bytes[offset..] == PrintAnimation(v)
  {
    IdLength(v.skeleton.value);
    hide PrintAll, PrintId;
    var id, n, tracks := PrintId(v.skeleton.value), Le(|v.tracks|, 4), PrintAll(PrintTrack, v.tracks);
    StartsSplit(bytes, offset + 52, n, tracks);
    StartsSplit(bytes, offset + 36, id, n + tracks);
    StartsSplit(bytes, offset + 4, v.compatibility, id + (n + tracks));
    StartsSplit(bytes, offset, Le(v.duration, 4), v.compatibility + (id + (n + tracks)));
    WholeRest(bytes, offset, PrintAnimation(v));
  }

  /** Rotations are normalised on reading as well; nothing that is read later depends on it. */
  method DecodeAnimation(bytes: seq<Byte>, offset: nat, q: Quaternions, ghost e: Animation)
    returns (r: Option<Animation>, ghost stored: Animation)
    requires offset <= |bytes|
    ensures r.Some? ==> AnimationPrintable(stored) && AnimationOk(stored, q)
                        && bytes[offset..] == PrintAnimation(stored)
                        && r.value == Normalized(stored, q)
    ensures AnimationPrintable(e) && bytes[offset..] == PrintAnimation(e) ==>
              r == if AnimationOk(e, q) then Some(Normalized(e, q)) else None
  {
    hide AnimationOk, AnimationPrintable, PrintAnimation;
    var raw := DecodeStored(bytes, offset, q, e);
    stored := if raw.Some? then raw.value else e;
    return if raw.Some? then Some(Normalized(raw.value, q)) else None, stored;
  }

  /** What an accepted animation is written as can be read back. */
  lemma NormalizedPrintable(v: Animation, q: Quaternions)
    requires KeepsShape(q) && AnimationTyped(v) && AnimationOk(v, q)
    ensures AnimationPrintable(Normalized(v, q))
  {
    FourBytes();
    hide Pow256;
    var n := Normalized(v, q);
    forall k: nat | k < |n.tracks| ensures Printable(n.tracks[k]) {
      assert TrackTyped(v.tracks[k]) && TrackOk(v.tracks[..k], v.tracks[k], v.duration, q);
      UnitShaped(q, v.tracks[k].rotation);
    }
    PrintableTyped(n.tracks);
  }

  /** Every stored rotation is a fixed point of normalisation. */
  ghost predicate Settled(v: Animation, q: Quaternions) {
    forall k: nat :: k < |v.tracks| ==> Stored(q, v.tracks[k]) == v.tracks[k]
  }

  lemma SettledStays(v: Animation, q: Quaternions)
    requires Settled(v, q)
    ensures Normalized(v, q) == v
  {
    assert StoredAll(q, v.tracks) == v.tracks;
  }
}
