/** Whole artifacts: a header naming version and kind, then the payload of that kind. */
module AssetArtifact {
  import opened Options
  import opened ByteCodec
  import opened FloatRows
  import opened ArtifactMedia
  import opened ArtifactCollision
  import opened ArtifactMesh
  import opened ArtifactAnimation

  const MAGIC: seq<Byte> := [71, 65, 82, 71, 65, 83, 48, 49]   // GARGAS01
  const MAX_ARTIFACT: nat := 64 * 1024 * 1024
  const SKELETON_VERSION: nat := 3

  datatype Asset =
    | OfImage(image: Image)
    | OfMesh(mesh: Mesh)
    | OfFont(font: Font)
    | OfMaterial(material: Material)
    | OfAudio(audio: Audio)
    | OfAnimation(animation: Animation)
    | OfCollision(collision: Collision)

  /** The kind byte of an artifact, as the program numbers the kinds. */
  function KindOf(a: Asset): Byte {
    match a
    case OfImage(_) => 0
    case OfMesh(_) => 1
    case OfFont(_) => 2
    case OfMaterial(_) => 3
    case OfAudio(_) => 4
    case OfAnimation(_) => 5
    case OfCollision(_) => 6
  }

  function VersionFor(a: Asset): nat {
    match a
    case OfCollision(_) => COLLISION_VERSION
    case OfMesh(mesh) => VersionOf(mesh)
    case OfAnimation(_) => SKELETON_VERSION
    case _ => PLAIN_VERSION
  }

  /** Decisions taken in rounded arithmetic. */
  datatype Numerics = Numerics(flat: (Row, Row, Row) -> bool, flatNormal: Row -> bool, quaternions: Quaternions)

  predicate Typed(a: Asset) {
    match a
    case OfImage(v) => ImageTyped(v)
    case OfMesh(v) => MeshTyped(v)
    case OfFont(v) => FontTyped(v)
    case OfMaterial(v) => MaterialTyped(v)
    case OfAudio(v) => AudioTyped(v)
    case OfAnimation(v) => AnimationTyped(v)
    case OfCollision(v) => CollisionTyped(v)
  }

  /** What the encoder accepts. */
  ghost predicate Encodable(a: Asset, m: Numerics) {
    match a
    case OfImage(v) => ImageOk(v)
    case OfMesh(v) => MeshOk(v)
    case OfFont(v) => FontOk(v)
    case OfMaterial(v) => MaterialOk(v)
    case OfAudio(v) => AudioOk(v)
    case OfAnimation(v) => AnimationOk(v, m.quaternions)
    case OfCollision(v) => CollisionOk(v, m.flat)
  }

  /** The value whose bytes are written: only an animation's rotations differ, being normalised first. */
  function Written(a: Asset, m: Numerics): Asset {
    match a
    case OfAnimation(v) => OfAnimation(Normalized(v, m.quaternions))
    case _ => a
  }

  /** A value that can stand in an artifact. */
  ghost predicate Readable(a: Asset, m: Numerics) {
    match a
    case OfAnimation(v) => AnimationPrintable(v)
    case _ => Typed(a) && Encodable(a, m)
  }

  /** What the decoder asks of it beyond that. */
  ghost predicate Fits(a: Asset, m: Numerics) {
    match a
    case OfImage(v) => ImageFits(v)
    case OfMesh(v) => MeshFits(v, m.flatNormal)
    case OfMaterial(v) => MaterialFits(v)
    case OfAnimation(v) => AnimationOk(v, m.quaternions)
    case _ => true
  }

  /** What the decoder makes of it. */
  function Restored(a: Asset, m: Numerics): Asset {
    match a
    case OfMesh(v) => OfMesh(Canonical(v))
    case OfAnimation(v) => OfAnimation(Normalized(v, m.quaternions))
    case _ => a
  }

  function Payload(a: Asset): seq<Byte>
    requires a.OfAnimation? ==> a.animation.skeleton.Some?
  {
    match a
    case OfImage(v) => PrintImage(v)
    case OfMesh(v) => PrintMesh(v)
    case OfFont(v) => PrintFont(v)
    case OfMaterial(v) => PrintMaterial(v)
    case OfAudio(v) => PrintAudio(v)
    case OfAnimation(v) => PrintAnimation(v)
    case OfCollision(v) => PrintCollision(v)
  }

  function Header(version: nat, kind: Byte): (s: seq<Byte>)
    ensures |s| == 13
  {
    MAGIC + (Le(version, 4) + [kind])
  }

  function Print(a: Asset): seq<Byte>
    requires a.OfAnimation? ==> a.animation.skeleton.Some?
  {
    Header(VersionFor(a), KindOf(a)) + Payload(a)
  }

  method BeginArtifact(version: nat, kind: Byte) returns (r: seq<Byte>)
    ensures r == Header(version, kind)
  {
    hide Le;
    r := AppendWord(MAGIC, version, 4);
    Append2(MAGIC, Le(version, 4), [kind]);
    r := r + [kind];
  }

  method EncodePayload(out: seq<Byte>, a: Asset, m: Numerics) returns (r: Option<seq<Byte>>)
    requires Typed(a)
    ensures r.Some? <==> Encodable(a, m)
    ensures r.Some? ==> (a.OfAnimation? ==> a.animation.skeleton.Some?) && r.value == out + Payload(Written(a, m))
  {
    hide ImageOk, MeshOk, FontOk, MaterialOk, AudioOk, CollisionOk, PrintImage, PrintMesh, PrintFont, PrintMaterial,
      PrintAudio,
      PrintCollision, PrintAnimation, TracksOk, DurationOk, ContentIdOk, StoredAll;
    match a {
      case OfImage(v) => r := EncodeImage(out, v);
      case OfMesh(v) => r := EncodeMesh(out, v);
      case OfFont(v) => r := EncodeFont(out, v);
      case OfMaterial(v) => r := EncodeMaterial(out, v);
      case OfAudio(v) => r := EncodeAudio(out, v);
      case OfAnimation(v) => r := EncodeAnimation(out, v, m.quaternions);
      case OfCollision(v) => r := EncodeCollision(out, v, m.flat);
    }
  }

  /** Encodes a value of the given kind, or refuses it. */
  method EncodeArtifact(a: Asset, kind: Byte, m: Numerics) returns (r: Option<seq<Byte>>)
    requires Typed(a)
    ensures r.Some? ==> KindOf(a) == kind && Encodable(a, m) && (a.OfAnimation? ==> a.animation.skeleton.Some?)
                        && r.value == Print(Written(a, m)) && |r.value| <= MAX_ARTIFACT
    ensures r.None? && KindOf(a) == kind && Encodable(a, m) ==>
              (a.OfAnimation? ==> a.animation.skeleton.Some?) && |Print(Written(a, m))| > MAX_ARTIFACT
  {
    if KindOf(a) != kind {
      return None;
    }
    hide Typed, Encodable, Payload, Header;
    var bytes := BeginArtifact(VersionFor(a), kind);
    r := EncodePayload(bytes, a, m);
    WrittenKind(a, m);
    if r.Some? && |r.value| > MAX_ARTIFACT {
      return None;
    }
  }

  lemma WrittenKind(a: Asset, m: Numerics)
    ensures KindOf(Written(a, m)) == KindOf(a) && VersionFor(Written(a, m)) == VersionFor(a)
  {}

  // Decoding.

  lemma HeaderStarts(bytes: seq<Byte>, version: nat, kind: Byte, rest: seq<Byte>)
    ensures bytes == Header(version, kind) + rest <==>
            |bytes| >= 13 && bytes[..8] == MAGIC && Starts(bytes, 8, Le(version, 4)) && bytes[12] == kind
              && bytes[13..] == rest
  {
    var h := Header(version, kind);
    if |bytes| >= 13 && bytes[..8] == MAGIC && Starts(bytes, 8, Le(version, 4)) && bytes[12] == kind
      && bytes[13..] == rest {
      assert bytes == bytes[..8] + (bytes[8..12] + [bytes[12]]) + bytes[13..];
    }
    if bytes == h + rest {
      assert bytes[..13] == h && bytes[13..] == rest;
      assert bytes[..8] == h[..8] && bytes[8..12] == h[8..12] && bytes[12] == h[12];
    }
  }

  /** The version that the header names, when the header is good for the kind. */
  method ReadHeader(bytes: seq<Byte>, kind: Byte) returns (r: Option<nat>)
    ensures r.Some? ==> 13 <= |bytes| <= MAX_ARTIFACT && 1 <= r.value <= 4
                        && bytes == Header(r.value, kind) + bytes[13..]
    ensures r.None? ==> |bytes| > MAX_ARTIFACT || forall version: nat, rest :: 1 <= version <= 4 ==>
            bytes != Header(version, kind) + rest
  {
    forall version: nat, rest
      ensures bytes == Header(version, kind) + rest <==>
              |bytes| >= 13 && bytes[..8] == MAGIC && Starts(bytes, 8, Le(version, 4)) && bytes[12] == kind
                && bytes[13..] == rest {
      HeaderStarts(bytes, version, kind, rest);
    }
    hide Header, Le;
    if |bytes| < 13 || |bytes| > MAX_ARTIFACT || bytes[..8] != MAGIC {
      return None;
    }
    var version := ReadWord(bytes, 8, 4);
    FourBytes();
    forall v: nat | v <= 4 && Starts(bytes, 8, Le(v, 4)) ensures v == version.value {
      WordRead(bytes, 8, 4, v, version.value);
    }
    if version.value < 1 || version.value > 4 || bytes[12] != kind {
      return None;
    }
    return Some(version.value);
  }

  lemma VersionRange(a: Asset)
    ensures 1 <= VersionFor(a) <= 4
  {}

  /** One header names one version. */
  lemma HeaderVersion(bytes: seq<Byte>, kind: Byte, v: nat, w: nat, a: seq<Byte>, b: seq<Byte>)
    requires bytes == Header(v, kind) + a && bytes == Header(w, kind) + b && v <= 4 && w <= 4
    ensures v == w && a == b
  {
    HeaderStarts(bytes, v, kind, a);
    HeaderStarts(bytes, w, kind, b);
    FourBytes();
    hide Header, Le;
    WordRead(bytes, 8, 4, v, w);
  }

  ghost predicate Whole(a: Asset) {
    a.OfAnimation? ==> a.animation.skeleton.Some?
  }

  /** `r` comes from a value that stands in the bytes from `offset` to their end. */
  ghost predicate Sound(bytes: seq<Byte>, r: Asset, stored: Asset, kind: Byte, m: Numerics) {
    && KindOf(stored) == kind && Readable(stored, m) && Whole(stored) && Fits(stored, m) && r == Restored(stored, m)
    && |bytes| >= 13 && bytes[13..] == Payload(stored)
  }

  /** The payload was written from `e`, in `e`'s own version. */
  ghost predicate Expected(bytes: seq<Byte>, version: nat, kind: Byte, m: Numerics, e: Asset) {
    Readable(e, m) && Whole(e) && KindOf(e) == kind && version == VersionFor(e) && |bytes| >= 13
      && bytes[13..] == Payload(e)
  }

  ghost predicate Exact(r: Option<Asset>, e: Asset, m: Numerics) {
    r == if Fits(e, m) then Some(Restored(e, m)) else None
  }

  /** Images, fonts, materials and audio; the latter two exist in one version only. */
  method DecodeMedia(bytes: seq<Byte>, version: nat, kind: Byte, m: Numerics, ghost e: Asset) returns (r: Option<Asset>)
    requires |bytes| >= 13 && (kind == 0 || kind == 2 || kind == 3 || kind == 4)
    ensures r.Some? ==> Sound(bytes, r.value, r.value, kind, m) && (kind > 2 ==> VersionFor(r.value) == version)
    ensures Expected(bytes, version, kind, m, e) ==> Exact(r, e, m)
  {
    hide ImageOk, FontOk, MaterialOk, AudioOk, ImageTyped, FontTyped, MaterialTyped, AudioTyped, ImageFits,
      MaterialFits,
      PrintImage, PrintFont, PrintMaterial, PrintAudio;
    r := None;
    if kind == 0 {
      var v := DecodeImage(bytes, 13, if e.OfImage? then e.image else Image(0, 0, []));
      if v.Some? {
        r := Some(OfImage(v.value));
      }
    } else if kind == 2 {
      var v := DecodeFont(bytes, 13, if e.OfFont? then e.font else Font([], 0));
      if v.Some? {
        r := Some(OfFont(v.value));
      }
    } else if version == PLAIN_VERSION {
      if kind == 3 {
        var v := DecodeMaterial(bytes, 13, if e.OfMaterial? then e.material else Material([], None, None, 0, 0, false));
        if v.Some? {
          r := Some(OfMaterial(v.value));
        }
      } else {
        var v := DecodeAudio(bytes, 13, if e.OfAudio? then e.audio else Audio(0, 0, 0, []));
        if v.Some? {
          r := Some(OfAudio(v.value));
        }
      }
    }
  }

  /** Static meshes; the skinned version is not part of this model and is refused here. */
  method DecodeStaticMesh(bytes: seq<Byte>, version: nat, m: Numerics, ghost e: Asset) returns (r: Option<Asset>)
    requires |bytes| >= 13 && 1 <= version <= 4
    ensures r.Some? ==> KindOf(r.value) == 1
    ensures r.Some? && version != FIRST_VERSION ==>
            Sound(bytes, r.value, r.value, 1, m) && VersionFor(r.value) == version
    ensures Expected(bytes, version, 1, m, e) ==> Exact(r, e, m)
  {
    hide MeshOk, MeshTyped, MeshFits, PrintMesh, Canonical;
    if version == SKELETON_VERSION {
      return None;
    }
    var v := DecodeMesh(bytes, 13, version, m.flatNormal, if e.OfMesh? then e.mesh
                        else Mesh([], [], [], 0, None, None));
    return if v.Some? then Some(OfMesh(v.value)) else None;
  }

  method DecodeRest(bytes: seq<Byte>, version: nat, kind: Byte, m: Numerics, ghost e: Asset)
    returns (r: Option<Asset>, ghost stored: Asset)
    requires |bytes| >= 13 && (kind == 5 || kind == 6)
    ensures r.Some? ==> Sound(bytes, r.value, stored, kind, m) && VersionFor(stored) == version
                        && (kind != 5 ==> stored == r.value)
    ensures Expected(bytes, version, kind, m, e) ==> Exact(r, e, m)
  {
    hide CollisionOk, CollisionTyped, PrintCollision, AnimationOk, Normalized, PrintAnimation;
    stored := e;
    r := None;
    if kind == 5 && version == SKELETON_VERSION {
      ghost var due := if e.OfAnimation? then e.animation else Animation(0, [], None, []);
      var v; ghost var raw;
      v, raw := DecodeAnimation(bytes, 13, m.quaternions, due);
      if v.Some? {
        PrintableIsWhole(raw);
        r, stored := Some(OfAnimation(v.value)), OfAnimation(raw);
      }
    } else if kind == 6 && version == COLLISION_VERSION {
      var v := DecodeCollision(bytes, 13, m.flat, if e.OfCollision? then e.collision else Collision([], [], []));
      if v.Some? {
        r := Some(OfCollision(v.value));
        stored := r.value;
      }
    }
  }

  lemma PrintableIsWhole(v: Animation)
    requires AnimationPrintable(v)
    ensures v.skeleton.Some?
  {}

  /** Decodes an artifact whose bytes hash to the catalogued identity. Except for meshes of the first version,
      whatever decodes was written from the value `stored`; and whatever was written decodes, exactly when it fits. */
  method DecodeArtifact<H(==)>(bytes: seq<Byte>, kind: Byte, hash: seq<Byte> -> H, id: H, m: Numerics, ghost e: Asset)
    returns (r: Option<Asset>, ghost stored: Asset, version: nat)
    requires kind <= 6
    ensures r.Some? ==> hash(bytes) == id && 13 <= |bytes| <= MAX_ARTIFACT && KindOf(r.value) == kind
                        && (kind != 5 ==> stored == r.value)
                        && bytes == Header(version, kind) + bytes[13..]
    ensures r.Some? && !(kind == 1 && version == FIRST_VERSION) ==> Sound(bytes, r.value, stored, kind, m)
    ensures r.Some? && kind != 0 && kind != 2 && !(kind == 1 && version == FIRST_VERSION) ==>
            VersionFor(stored) == version
    ensures Readable(e, m) && Whole(e) && KindOf(e) == kind && bytes == Print(e) && |bytes| <= MAX_ARTIFACT
            && hash(bytes) == id ==>
              Exact(r, e, m)
  {
    hide Sound, Expected, Exact, Header, Payload, Readable, Le;
    stored, version, r := e, 0, None;
    var named := ReadHeader(bytes, kind);
    if named.None? || hash(bytes) != id {
      VersionRange(e);
      return;
    }
    version := named.value;
    ExpectedPayload(bytes, version, kind, m, e);
    if kind == 1 {
      r := DecodeStaticMesh(bytes, named.value, m, e);
      stored := if r.Some? then r.value else e;
    } else if kind <= 4 {
      r := DecodeMedia(bytes, named.value, kind, m, e);
      stored := if r.Some? then r.value else e;
    } else {
      r, stored := DecodeRest(bytes, named.value, kind, m, e);
    }
    if r.Some? && kind != 1 {
      SoundKind(bytes, r.value, stored, kind, m);
    }
  }

  lemma ExpectedPayload(bytes: seq<Byte>, version: nat, kind: Byte, m: Numerics, e: Asset)
    requires 1 <= version <= 4 && |bytes| >= 13 && bytes == Header(version, kind) + bytes[13..]
    ensures Readable(e, m) && Whole(e) && KindOf(e) == kind && bytes == Print(e) ==>
            Expected(bytes, version, kind, m, e)
  {
    hide Header, Payload, Readable;
    if Readable(e, m) && Whole(e) && KindOf(e) == kind && bytes == Print(e) {
      VersionRange(e);
      HeaderVersion(bytes, kind, version, VersionFor(e), bytes[13..], Payload(e));
    }
  }

  lemma SoundKind(bytes: seq<Byte>, r: Asset, stored: Asset, kind: Byte, m: Numerics)
    requires Sound(bytes, r, stored, kind, m)
    ensures KindOf(r) == kind
  {
    hide Readable, Fits, Payload;
  }

  /** What an accepted value is written as can be read. */
  lemma WrittenIsReadable(a: Asset, m: Numerics)
    requires Typed(a) && Encodable(a, m) && KeepsShape(m.quaternions)
    ensures Readable(Written(a, m), m) && Whole(Written(a, m))
  {
    if a.OfAnimation? {
      NormalizedPrintable(a.animation, m.quaternions);
    }
  }

  /** Encoding and then decoding: the result is exact for every value the encoder accepts. Audio, fonts and collision
      shapes always come back as they were, and so do animations whose rotations are settled. */
  method RoundTrip<H(==)>(a: Asset, hash: seq<Byte> -> H, m: Numerics) returns (encoded: bool, r: Option<Asset>)
    requires Typed(a) && KeepsShape(m.quaternions)
    ensures encoded ==> Encodable(a, m)
    ensures !encoded && Encodable(a, m) ==> Whole(a) && |Print(Written(a, m))| > MAX_ARTIFACT
    ensures encoded ==> r == if Fits(Written(a, m), m) then Some(Restored(Written(a, m), m)) else None
    ensures encoded && (a.OfAudio? || a.OfFont? || a.OfCollision?) ==> r == Some(a)
    ensures encoded && a.OfAnimation? && Settled(a.animation, m.quaternions) ==> r == Some(a)
    ensures encoded && a.OfMesh? && r.Some? ==> r.value.OfMesh? && SameMesh(a.mesh, r.value.mesh)
    ensures encoded && (a.OfImage? || a.OfMaterial?) && r.Some? ==> r == Some(a)
  {
    if Encodable(a, m) && a.OfAnimation? && Settled(a.animation, m.quaternions) {
      SettledComesBack(a, m);
    }
    if a.OfMesh? {
      CanonicalIsSame(a.mesh);
    }
    assert (a.OfAudio? || a.OfFont? || a.OfCollision?) ==> Fits(Written(a, m), m);
    hide Settled;
    hide Typed, Encodable, Readable, Fits, Print, KeepsShape;
    var kind := KindOf(a);
    var bytes := EncodeArtifact(a, kind, m);
    if bytes.None? {
      return false, None;
    }
    WrittenIsReadable(a, m);
    WrittenKind(a, m);
    ghost var stored;
    var version;
    r, stored, version := DecodeArtifact(bytes.value, kind, hash, hash(bytes.value), m, Written(a, m));
    return true, r;
  }

  /** An animation whose rotations are fixed points of normalisation fits and is restored to itself. */
  lemma SettledComesBack(a: Asset, m: Numerics)
    requires a.OfAnimation? && Encodable(a, m) && Settled(a.animation, m.quaternions)
    ensures Fits(Written(a, m), m) && Restored(Written(a, m), m) == a
  {
    SettledStays(a.animation, m.quaternions);
  }

  /** Decoding and then encoding: materials, audio, collision shapes and meshes of the current versions
      have one artifact only, and it is reproduced byte for byte. */
  method Recode<H(==)>(bytes: seq<Byte>, kind: Byte, hash: seq<Byte> -> H, id: H, m: Numerics, ghost any: Asset)
    returns (r: Option<Asset>, again: Option<seq<Byte>>, version: nat)
    requires kind == 1 || kind == 3 || kind == 4 || kind == 6
    ensures r.Some? && !(kind == 1 && version == FIRST_VERSION) ==> again == Some(bytes)
    ensures r.Some? ==> 13 <= |bytes| && bytes == Header(version, kind) + bytes[13..]
  {
    hide Typed, Encodable, Fits, Payload, Header;
    ghost var stored;
    r, stored, version := DecodeArtifact(bytes, kind, hash, id, m, any);
    again := None;
    if r.None? {
      return;
    }
    var typed := Typed(r.value);
    if typed {
      again := EncodeArtifact(r.value, kind, m);
    }
  }
}
