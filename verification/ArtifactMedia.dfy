/** The payloads of image, font, audio and material artifacts. */
module ArtifactMedia {
  import opened Arithmetic
  import opened Options
  import opened ByteCodec
  import opened FloatRows

  const MAX_DIMENSION: nat := 1024
  const MAX_IMAGE_BYTES: nat := 4 * 1024 * 1024
  const MAX_FONT_BYTES: nat := 8 * 1024 * 1024
  const MAX_FACES: nat := 64
  const MIN_RATE: nat := 8_000
  const MAX_RATE: nat := 48_000
  const MAX_CHANNELS: nat := 2
  const MAX_SECONDS: nat := 30
  const MAX_FRAMES: nat := MAX_RATE * MAX_SECONDS
  const SIZE_MODULUS: nat := 0x1_0000_0000_0000_0000
  const MAX_PCM_BYTES: nat := MAX_FRAMES * MAX_CHANNELS * 2

  // A font or sound whose buffer is missing counts as one with an empty buffer: the program refuses both alike.
  // An image here always has a buffer.

  datatype Image = Image(width: nat, height: nat, pixels: seq<Byte>)

  datatype Font = Font(bytes: seq<Byte>, faces: nat)

  datatype Audio = Audio(rate: nat, channels: Byte, frames: nat, pcm: seq<nat>)

  datatype AssetId = AssetId(high: nat, low: nat)

  datatype Material = Material(factors: Row, baseColor: Option<AssetId>, normal: Option<AssetId>,
                               alphaMode: Byte, alphaCutoff: nat, doubleSided: bool)

  // Images.

  predicate ImageTyped(v: Image) {
    v.width < Pow256(4) && v.height < Pow256(4)
  }

  /** The expected size is computed in 64 bits and wraps, so an enormous image may go with a small buffer. */
  function ImageBytes(width: nat, height: nat): nat {
    width * height * 4 % SIZE_MODULUS
  }

  /** Within the decoder's dimensions nothing wraps. */
  lemma SmallImage(width: nat, height: nat)
    requires width <= MAX_DIMENSION && height <= MAX_DIMENSION
    ensures ImageBytes(width, height) == width * height * 4 <= MAX_IMAGE_BYTES
  {
    Grow(MAX_DIMENSION, width, height);
    var size := width * height;
    assert size <= MAX_DIMENSION * height <= MAX_IMAGE_BYTES / 4;
    assert size * 4 % SIZE_MODULUS == size * 4;
  }

  /** The program accepts an image of 2^31 by 2^31 pixels without a single byte, and cannot read it back. */
  lemma EnormousImage()
    ensures var v := Image(0x8000_0000, 0x8000_0000, []); ImageTyped(v) && ImageOk(v) && !ImageFits(v)
  {}

  predicate ImageOk(v: Image) {
    v.width != 0 && v.height != 0 && |v.pixels| == ImageBytes(v.width, v.height)
  }

  /** What the decoder asks of an image beyond the encoder. */
  predicate ImageFits(v: Image) {
    v.width <= MAX_DIMENSION && v.height <= MAX_DIMENSION && ImageBytes(v.width, v.height) <= MAX_IMAGE_BYTES
  }

  function PrintImage(v: Image): seq<Byte> {
    Le(v.width, 4) + (Le(v.height, 4) + v.pixels)
  }

  method EncodeImage(out: seq<Byte>, v: Image) returns (r: Option<seq<Byte>>)
    ensures r == if ImageOk(v) then Some(out + PrintImage(v)) else None
  {
    if v.width == 0 || v.height == 0 || |v.pixels| != ImageBytes(v.width, v.height) {
      return None;
    }
    hide Le;
    var bytes := AppendWord(out, v.width, 4);
    bytes := AppendWord(bytes, v.height, 4);
    Append3(out, Le(v.width, 4), Le(v.height, 4), v.pixels);
    return Some(bytes + v.pixels);
  }

  method DecodeImage(bytes: seq<Byte>, offset: nat, ghost e: Image) returns (r: Option<Image>)
    requires offset <= |bytes|
    ensures r.Some? ==> ImageTyped(r.value) && ImageOk(r.value) && ImageFits(r.value)
                        && bytes[offset..] == PrintImage(r.value)
    ensures ImageTyped(e) && ImageOk(e) && bytes[offset..] == PrintImage(e) ==>
            r == if ImageFits(e) then Some(e) else None
  {
    hide Starts, Le, ImageBytes;
    ghost var expected := ImageTyped(e) && ImageOk(e) && bytes[offset..] == PrintImage(e);
    WholeRest(bytes, offset, PrintImage(e));
    var width := ReadField(bytes, offset, 4, e.width, Le(e.height, 4) + e.pixels);
    if width.Bad? {
      return None;
    }
    var height := ReadField(bytes, width.next, 4, e.height, e.pixels);
    if height.Bad? {
      return None;
    }
    var w, h, next := width.value, height.value, height.next;
    WholeRest(bytes, next, e.pixels);
    if w == 0 || h == 0 || w > MAX_DIMENSION || h > MAX_DIMENSION {
      return None;
    }
    if ImageBytes(w, h) > MAX_IMAGE_BYTES || |bytes| - next != ImageBytes(w, h) {
      return None;
    }
    r := Some(Image(w, h, bytes[next..]));
    Rejoin(bytes, offset, Le(w, 4), Le(h, 4));
  }

  /** Two words read in turn, and everything behind them, are the whole rest. */
  lemma Rejoin(bytes: seq<Byte>, offset: nat, a: seq<Byte>, b: seq<Byte>)
    requires Starts(bytes, offset, a) && Starts(bytes, offset + |a|, b)
    ensures bytes[offset..] == a + (b + bytes[offset + |a| + |b|..])
  {}

  // Fonts.

  predicate FontTyped(v: Font) {
    v.faces < Pow256(4)
  }

  predicate FontOk(v: Font) {
    0 < |v.bytes| <= MAX_FONT_BYTES && 0 < v.faces <= MAX_FACES
  }

  function PrintFont(v: Font): seq<Byte> {
    Le(v.faces, 4) + (Le(|v.bytes|, 4) + v.bytes)
  }

  method EncodeFont(out: seq<Byte>, v: Font) returns (r: Option<seq<Byte>>)
    ensures r == if FontOk(v) then Some(out + PrintFont(v)) else None
  {
    if |v.bytes| == 0 || |v.bytes| > MAX_FONT_BYTES || v.faces == 0 || v.faces > MAX_FACES {
      return None;
    }
    hide Le;
    var bytes := AppendWord(out, v.faces, 4);
    bytes := AppendWord(bytes, |v.bytes|, 4);
    Append3(out, Le(v.faces, 4), Le(|v.bytes|, 4), v.bytes);
    return Some(bytes + v.bytes);
  }

  lemma FourBytes()
    ensures Pow256(1) == 256 && Pow256(2) == 0x1_0000 && Pow256(4) == 0x1_0000_0000
  {
    assert Pow256(1) == 256 * Pow256(0);
    assert Pow256(2) == 256 * Pow256(1);
    assert Pow256(3) == 256 * Pow256(2);
  }

  method DecodeFont(bytes: seq<Byte>, offset: nat, ghost e: Font) returns (r: Option<Font>)
    requires offset <= |bytes|
    ensures r.Some? ==> FontTyped(r.value) && FontOk(r.value) && bytes[offset..] == PrintFont(r.value)
    ensures FontTyped(e) && FontOk(e) && bytes[offset..] == PrintFont(e) ==> r == Some(e)
  {
    hide Starts, Le;
    FourBytes();
    WholeRest(bytes, offset, PrintFont(e));
    var faces := ReadField(bytes, offset, 4, e.faces, Le(|e.bytes|, 4) + e.bytes);
    if faces.Bad? {
      return None;
    }
    var count := ReadField(bytes, faces.next, 4, |e.bytes|, e.bytes);
    if count.Bad? {
      return None;
    }
    var next := count.next;
    WholeRest(bytes, next, e.bytes);
    if faces.value == 0 || faces.value > MAX_FACES || count.value == 0 || count.value > MAX_FONT_BYTES
       || |bytes| - next != count.value {
      return None;
    }
    r := Some(Font(bytes[next..], faces.value));
    Rejoin(bytes, offset, Le(faces.value, 4), Le(count.value, 4));
  }

  // Audio.

  predicate AudioTyped(v: Audio) {
    v.rate < Pow256(4) && v.frames < Pow256(4) && Below(v.pcm, Pow256(2))
  }

  predicate RatesOk(rate: nat, channels: Byte, frames: nat) {
    && 0 < channels <= MAX_CHANNELS && MIN_RATE <= rate <= MAX_RATE && 0 < frames <= MAX_FRAMES
    && frames <= rate * MAX_SECONDS && frames * channels * 2 <= MAX_PCM_BYTES
  }

  predicate AudioOk(v: Audio) {
    RatesOk(v.rate, v.channels, v.frames) && |v.pcm| == v.frames * v.channels
  }

  function PrintAudio(v: Audio): seq<Byte> {
    Le(v.rate, 4) + ([v.channels] + (Le(v.frames, 4) + PrintAll(PrintWord(2), v.pcm)))
  }

  method EncodeAudio(out: seq<Byte>, v: Audio) returns (r: Option<seq<Byte>>)
    ensures r == if AudioOk(v) then Some(out + PrintAudio(v)) else None
  {
    var samples := v.frames * v.channels;
    if v.channels == 0 || v.channels > MAX_CHANNELS || v.rate < MIN_RATE || v.rate > MAX_RATE || v.frames == 0
       || v.frames > MAX_FRAMES || v.frames > v.rate * MAX_SECONDS || samples != |v.pcm|
          || samples * 2 > MAX_PCM_BYTES {
      return None;
    }
    hide PrintAll, Le;
    var bytes := AppendWord(out, v.rate, 4);
    bytes := bytes + [v.channels];
    bytes := AppendWord(bytes, v.frames, 4);
    bytes := AppendWords(bytes, v.pcm, 2);
    Append4(out, Le(v.rate, 4), [v.channels], Le(v.frames, 4), PrintAll(PrintWord(2), v.pcm));
    return Some(bytes);
  }

  lemma {:induction false} PrintedWords(s: seq<nat>, n: nat)
    ensures |PrintAll(PrintWord(n), s)| == n * |s|
  {
    if s != [] {
      PrintedWords(s[1..], n);
      assert n * |s| == n + n * (|s| - 1);
    }
  }

  method DecodeAudio(bytes: seq<Byte>, offset: nat, ghost e: Audio) returns (r: Option<Audio>)
    requires offset <= |bytes|
    ensures r.Some? ==> AudioTyped(r.value) && AudioOk(r.value) && bytes[offset..] == PrintAudio(r.value)
    ensures AudioTyped(e) && AudioOk(e) && bytes[offset..] == PrintAudio(e) ==> r == Some(e)
  {
    hide Starts, Le, PrintAll;
    ghost var expected := AudioTyped(e) && AudioOk(e) && bytes[offset..] == PrintAudio(e);
    ghost var samples := PrintAll(PrintWord(2), e.pcm);
    WholeRest(bytes, offset, PrintAudio(e));
    var rate := ReadField(bytes, offset, 4, e.rate, [e.channels] + (Le(e.frames, 4) + samples));
    if rate.Bad? || rate.next >= |bytes| {
      ByteStarts(bytes, offset + 4, e.channels, Le(e.frames, 4) + samples);
      return None;
    }
    ByteStarts(bytes, rate.next, e.channels, Le(e.frames, 4) + samples);
    var channels := bytes[rate.next];
    var frames := ReadField(bytes, rate.next + 1, 4, e.frames, samples);
    if frames.Bad? {
      return None;
    }
    assert expected ==> rate.value == e.rate && channels == e.channels && frames.value == e.frames
                        && Starts(bytes, frames.next, samples);
    r := DecodeSamples(bytes, rate.value, channels, frames.value, frames.next, e);
    if r.Some? {
      WholeRest(bytes, frames.next, PrintAll(PrintWord(2), r.value.pcm));
      AudioJoin(bytes, offset, rate.value, channels, frames.value, PrintAll(PrintWord(2), r.value.pcm));
    }
  }

  lemma AudioJoin(bytes: seq<Byte>, offset: nat, rate: nat, channels: Byte, frames: nat, samples: seq<Byte>)
    requires Starts(bytes, offset, Le(rate, 4)) && offset + 4 < |bytes| && bytes[offset + 4] == channels
    requires Starts(bytes, offset + 5, Le(frames, 4)) && Starts(bytes, offset + 9, samples)
             && offset + 9 + |samples| == |bytes|
    ensures bytes[offset..] == Le(rate, 4) + ([channels] + (Le(frames, 4) + samples))
  {
    StartsSplit(bytes, offset + 5, Le(frames, 4), samples);
    ByteStarts(bytes, offset + 4, channels, Le(frames, 4) + samples);
    StartsSplit(bytes, offset, Le(rate, 4), [channels] + (Le(frames, 4) + samples));
    WholeRest(bytes, offset, Le(rate, 4) + ([channels] + (Le(frames, 4) + samples)));
  }

  /** The samples behind checked metadata: exactly as many as the metadata promises, up to the last byte. */
  method DecodeSamples(bytes: seq<Byte>, rate: nat, channels: Byte, frames: nat, offset: nat, ghost e: Audio)
    returns (r: Option<Audio>)
    requires offset <= |bytes|
    ensures r.Some? ==> r.value == Audio(rate, channels, frames, r.value.pcm) && AudioOk(r.value)
                        && Below(r.value.pcm, Pow256(2))
                        && bytes[offset..] == PrintAll(PrintWord(2), r.value.pcm)
    ensures e == Audio(rate, channels, frames, e.pcm) && Below(e.pcm, Pow256(2)) && AudioOk(e)
            && Starts(bytes, offset, PrintAll(PrintWord(2), e.pcm))
               && offset + |PrintAll(PrintWord(2), e.pcm)| == |bytes|
            ==> r == Some(e)
  {
    hide Starts, Le, PrintAll, PrintWord;
    PrintedWords(e.pcm, 2);
    if !RatesOk(rate, channels, frames) || |bytes| - offset != frames * channels * 2 {
      return None;
    }
    var pcm := ReadWords(bytes, offset, frames * channels, 2, _ => true, e.pcm);
    if pcm.Bad? {
      return None;
    }
    PrintedWords(pcm.value, 2);
    WholeRest(bytes, offset, PrintAll(PrintWord(2), pcm.value));
    return Some(Audio(rate, channels, frames, pcm.value));
  }

  // Materials.

  predicate IdTyped(id: AssetId) {
    id.high < Pow256(8) && id.low < Pow256(8)
  }

  predicate IdOk(id: AssetId) {
    id.high != 0 || id.low != 0
  }

  function PrintId(id: AssetId): seq<Byte> {
    Le(id.high, 8) + Le(id.low, 8)
  }

  method AppendId(out: seq<Byte>, id: AssetId) returns (r: seq<Byte>)
    ensures r == out + PrintId(id)
  {
    hide Le;
    r := AppendWord(out, id.high, 8);
    r := AppendWord(r, id.low, 8);
    Append2(out, Le(id.high, 8), Le(id.low, 8));
  }

  /** Reads an identifier; the null one is refused. */
  method ReadId(bytes: seq<Byte>, offset: nat, ghost e: AssetId, ghost rest: seq<Byte>) returns (r: Read<AssetId>)
    requires offset <= |bytes|
    ensures r.Ok? ==> IdTyped(r.value) && IdOk(r.value) && Starts(bytes, offset, PrintId(r.value))
                      && r.next == offset + 16 <= |bytes|
    ensures IdTyped(e) && Starts(bytes, offset, PrintId(e) + rest) ==>
              r == (if IdOk(e) then Ok(e, offset + 16) else Bad) && Starts(bytes, offset + 16, rest)
  {
    hide Starts, Le, Pow256;
    assert PrintId(e) + rest == Le(e.high, 8) + (Le(e.low, 8) + rest);
    var high := ReadField(bytes, offset, 8, e.high, Le(e.low, 8) + rest);
    if high.Bad? {
      return Bad;
    }
    var low := ReadField(bytes, high.next, 8, e.low, rest);
    if low.Bad? || (high.value == 0 && low.value == 0) {
      return Bad;
    }
    StartsSplit(bytes, offset, Le(high.value, 8), Le(low.value, 8));
    return Ok(AssetId(high.value, low.value), low.next);
  }

  predicate ReferenceTyped(o: Option<AssetId>) {
    o.Some? ==> IdTyped(o.value)
  }

  predicate ReferenceOk(o: Option<AssetId>) {
    o.Some? ==> IdOk(o.value)
  }

  function PrintReference(o: Option<AssetId>): seq<Byte> {
    if o.None? then [0] else [1] + PrintId(o.value)
  }

  method AppendReference(out: seq<Byte>, o: Option<AssetId>) returns (r: seq<Byte>)
    ensures r == out + PrintReference(o)
  {
    if o.None? {
      return out + [0];
    }
    hide PrintId;
    r := AppendId(out + [1], o.value);
    Append2(out, [1], PrintId(o.value));
  }

  /** Reads a flag and, behind a set one, an identifier. */
  method ReadReference(bytes: seq<Byte>, offset: nat, ghost e: Option<AssetId>, ghost rest: seq<Byte>)
    returns (r: Read<Option<AssetId>>)
    requires offset <= |bytes|
    ensures r.Ok? ==> ReferenceTyped(r.value) && ReferenceOk(r.value) && Starts(bytes, offset, PrintReference(r.value))
                      && r.next == offset + |PrintReference(r.value)| <= |bytes|
    ensures ReferenceTyped(e) && Starts(bytes, offset, PrintReference(e) + rest) ==>
              r == (if ReferenceOk(e) then Ok(e, offset + |PrintReference(e)|) else Bad)
              && Starts(bytes, offset + |PrintReference(e)|, rest)
  {
    hide Starts, IdTyped, PrintId;
    ghost var tail := if e.None? then rest else PrintId(e.value) + rest;
    assert PrintReference(e) + rest == [if e.None? then 0 else 1] + tail;
    ByteStarts(bytes, offset, if e.None? then 0 else 1, tail);
    if offset >= |bytes| || bytes[offset] > 1 {
      return Bad;
    }
    if bytes[offset] == 0 {
      FlagStarts(bytes, offset);
      return Ok(None, offset + 1);
    }
    var id := ReadId(bytes, offset + 1, if e.None? then AssetId(0, 0) else e.value, rest);
    IdLength(if e.None? then AssetId(0, 0) else e.value);
    if id.Bad? {
      return Bad;
    }
    IdLength(id.value);
    ByteStarts(bytes, offset, 1, PrintId(id.value));
    return Ok(Some(id.value), id.next);
  }

  lemma IdLength(id: AssetId)
    ensures |PrintId(id)| == 16
  {}

  lemma FlagStarts(bytes: seq<Byte>, offset: nat)
    requires offset < |bytes|
    ensures Starts(bytes, offset, [bytes[offset]])
  {
    assert bytes[offset..offset + 1] == [bytes[offset]];
  }

  predicate MaterialTyped(v: Material) {
    Shaped(v.factors, 6) && v.alphaCutoff < Pow256(4) && ReferenceTyped(v.baseColor) && ReferenceTyped(v.normal)
  }

  predicate MaterialOk(v: Material) {
    FiniteRow(v.factors) && Finite(v.alphaCutoff)
  }

  /** What the decoder asks of a material beyond the encoder. */
  predicate MaterialFits(v: Material) {
    ReferenceOk(v.baseColor) && ReferenceOk(v.normal) && v.alphaMode <= 2
  }

  function PrintAlpha(v: Material): seq<Byte> {
    [v.alphaMode] + (Le(v.alphaCutoff, 4) + [if v.doubleSided then 1 else 0])
  }

  function PrintMaterial(v: Material): seq<Byte> {
    PrintRow(v.factors) + (PrintReference(v.baseColor) + (PrintReference(v.normal) + PrintAlpha(v)))
  }

  method EncodeMaterial(out: seq<Byte>, v: Material) returns (r: Option<seq<Byte>>)
    ensures r == if MaterialOk(v) then Some(out + PrintMaterial(v)) else None
  {
    if !FiniteRow(v.factors) || !Finite(v.alphaCutoff) {
      return None;
    }
    hide PrintRow, PrintReference, Le, FiniteRow, Finite;
    var bytes := AppendRow(out, v.factors);
    bytes := AppendReference(bytes, v.baseColor);
    bytes := AppendReference(bytes, v.normal);
    bytes := AppendWord(bytes + [v.alphaMode], v.alphaCutoff, 4);
    bytes := bytes + [if v.doubleSided then 1 else 0];
    Append6(out, PrintRow(v.factors), PrintReference(v.baseColor), PrintReference(v.normal),
            [v.alphaMode], Le(v.alphaCutoff, 4), [if v.doubleSided then 1 else 0]);
    return Some(bytes);
  }

  /** The last fields of a material, up to the last byte. */
  method DecodeAlpha(bytes: seq<Byte>, offset: nat, ghost e: Material) returns (r: Option<(Byte, nat, bool)>)
    requires offset <= |bytes|
    ensures r.Some? ==> r.value.0 <= 2 && r.value.1 < Pow256(4) && Finite(r.value.1)
                        && bytes[offset..] == [r.value.0] + (Le(r.value.1, 4) + [if r.value.2 then 1 else 0])
    ensures e.alphaCutoff < Pow256(4) && Finite(e.alphaCutoff) && bytes[offset..] == PrintAlpha(e) ==>
              r == if e.alphaMode <= 2 then Some((e.alphaMode, e.alphaCutoff, e.doubleSided)) else None
  {
    hide Starts, Le, Pow256, Finite;
    ghost var flag: Byte := if e.doubleSided then 1 else 0;
    WholeRest(bytes, offset, PrintAlpha(e));
    ByteStarts(bytes, offset, e.alphaMode, Le(e.alphaCutoff, 4) + [flag]);
    if offset >= |bytes| || bytes[offset] > 2 {
      return None;
    }
    var cutoff := ReadField(bytes, offset + 1, 4, e.alphaCutoff, [flag]);
    if cutoff.Bad? || !Finite(cutoff.value) {
      return None;
    }
    var next := cutoff.next;
    ByteStarts(bytes, next, flag, []);
    if next >= |bytes| || bytes[next] > 1 || next + 1 != |bytes| {
      return None;
    }
    AlphaJoin(bytes, offset, cutoff.value);
    return Some((bytes[offset], cutoff.value, bytes[next] != 0));
  }

  lemma AlphaJoin(bytes: seq<Byte>, offset: nat, cutoff: nat)
    requires offset + 6 == |bytes| && Starts(bytes, offset + 1, Le(cutoff, 4))
    ensures bytes[offset..] == [bytes[offset]] + (Le(cutoff, 4) + [bytes[offset + 5]])
  {}

  method DecodeMaterial(bytes: seq<Byte>, offset: nat, ghost e: Material) returns (r: Option<Material>)
    requires offset <= |bytes|
    ensures r.Some? ==> MaterialTyped(r.value) && MaterialOk(r.value) && MaterialFits(r.value)
                        && bytes[offset..] == PrintMaterial(r.value)
    ensures MaterialTyped(e) && MaterialOk(e) && bytes[offset..] == PrintMaterial(e) ==>
            r == if MaterialFits(e) then Some(e) else None
  {
    hide Starts, Le, Pow256, Finite, PrintRow, PrintReference, FiniteRow, Shaped, ReferenceTyped, ReferenceOk,
      PrintAlpha;
    ghost var tail := PrintReference(e.baseColor) + (PrintReference(e.normal) + PrintAlpha(e));
    WholeRest(bytes, offset, PrintMaterial(e));
    StartsSplit(bytes, offset, PrintRow(e.factors), tail);
    var factors := ReadRow(bytes, offset, 6, e.factors);
    if factors.Bad? {
      return None;
    }
    var base := ReadReference(bytes, factors.next, e.baseColor, PrintReference(e.normal) + PrintAlpha(e));
    if base.Bad? {
      return None;
    }
    var normal := ReadReference(bytes, base.next, e.normal, PrintAlpha(e));
    if normal.Bad? {
      return None;
    }
    WholeRest(bytes, normal.next, PrintAlpha(e));
    var alpha := DecodeAlpha(bytes, normal.next, e);
    if alpha.None? {
      return None;
    }
    r := Some(Material(factors.value, base.value, normal.value, alpha.value.0, alpha.value.1, alpha.value.2));
    MaterialJoin(bytes, offset, r.value);
  }

  lemma MaterialJoin(bytes: seq<Byte>, offset: nat, v: Material)
    requires var a := offset + |PrintRow(v.factors)|; var b := a + |PrintReference(v.baseColor)|;
             var c := b + |PrintReference(v.normal)|;
             && Starts(bytes, offset, PrintRow(v.factors)) && Starts(bytes, a, PrintReference(v.baseColor))
             && Starts(bytes, b, PrintReference(v.normal)) && c <= |bytes|
             && bytes[c..] == [v.alphaMode] + (Le(v.alphaCutoff, 4) + [if v.doubleSided then 1 else 0])
    ensures bytes[offset..] == PrintMaterial(v)
  {
    hide PrintRow, PrintReference, Le;
    var a := offset + |PrintRow(v.factors)|;
    var b := a + |PrintReference(v.baseColor)|;
    WholeRest(bytes, b + |PrintReference(v.normal)|, PrintAlpha(v));
    StartsSplit(bytes, b, PrintReference(v.normal), PrintAlpha(v));
    StartsSplit(bytes, a, PrintReference(v.baseColor), PrintReference(v.normal) + PrintAlpha(v));
    StartsSplit(bytes, offset, PrintRow(v.factors),
                PrintReference(v.baseColor) + (PrintReference(v.normal) + PrintAlpha(v)));
    hide PrintAlpha;
    WholeRest(bytes, offset, PrintMaterial(v));
  }
}
