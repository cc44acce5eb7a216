// The wardrobe records of codec v0 and the checks its zod schemas make
// before encoding.

module Schema {
  import opened Bytes
  import Arith
  import Half
  import Utf8

  /** Number.MAX_SAFE_INTEGER, 2^53 - 1. */
  const MaxSafeInteger: int := 0x1F_FFFF_FFFF_FFFF

  /** An RGB24 body colour. */
  datatype Rgb = Rgb(r: int, g: int, b: int)

  /** A Vector3 of float32 axes (float32 bit patterns). */
  datatype V3 = V3(x: Half.Bits32, y: Half.Bits32, z: Half.Bits32)

  /** An asset: layered clothing carries metadata, everything else is only
      an id. hasMetadata is the constructor. */
  datatype Asset =
    | WithMeta(id: int, order: int, puffiness: Half.Bits32, position: V3, rotation: V3, scale: V3)
    | WithoutMeta(id: int)

  /** An outfit. The scale fields hold float32 bit patterns: a JavaScript
      number is modelled by the float32 it becomes when written. */
  datatype Outfit = Outfit(
    name: string,
    created: int,
    modified: int,
    lastUsed: int,
    useCount: int,
    tags: seq<int>,
    headColor: Rgb,
    torsoColor: Rgb,
    leftArmColor: Rgb,
    rightArmColor: Rgb,
    leftLegColor: Rgb,
    rightLegColor: Rgb,
    height: Half.Bits32,
    width: Half.Bits32,
    head: Half.Bits32,
    depth: Half.Bits32,
    proportion: Half.Bits32,
    bodyType: Half.Bits32,
    avatarType: int,
    assets: seq<Asset>,
    thumbnail: seq<Byte>)

  datatype Wardrobe = Wardrobe(version: int, outfits: seq<Outfit>, tags: seq<string>)

  predicate U8(x: int) { 0 <= x <= 255 }

  predicate U16(x: int) { 0 <= x <= 65535 }

  /** An integer id or timestamp a JavaScript number holds exactly. */
  predicate U64Clamped(x: int) { 0 <= x <= MaxSafeInteger }

  /** The absolute value of a float32 pattern as a pattern; patterns of
      non-negative floats are ordered like their values. */
  function Magnitude(x: Half.Bits32): (m: int)
    ensures 0 <= m < 0x8000_0000
  {
    x % 0x8000_0000
  }

  /** -65504 <= x <= 65504 (65504 is the pattern 0x477f_e000); NaN fails. */
  predicate F16Range(x: Half.Bits32) { Magnitude(x) <= 0x477F_E000 }

  /** -3.40282347e38 <= x <= 3.40282347e38: a finite float32. */
  predicate F32Range(x: Half.Bits32) { Magnitude(x) <= 0x7F7F_FFFF }

  /** 0 <= x <= 2 (2 is 0x4000_0000; -0 also passes the check). */
  predicate RbxScale(x: Half.Bits32) { x <= 0x4000_0000 || x == 0x8000_0000 }

  /** 0 <= x <= 1 (1 is 0x3f80_0000). */
  predicate Normalized(x: Half.Bits32) { x <= 0x3F80_0000 || x == 0x8000_0000 }

  predicate RgbValid(c: Rgb) { U8(c.r) && U8(c.g) && U8(c.b) }

  predicate V3Valid(v: V3) { F32Range(v.x) && F32Range(v.y) && F32Range(v.z) }

  predicate AssetValid(a: Asset)
  {
    match a
    case WithMeta(id, order, puffiness, position, rotation, scale) =>
      U64Clamped(id) && U8(order) && F16Range(puffiness)
      && V3Valid(position) && V3Valid(rotation) && V3Valid(scale)
    case WithoutMeta(id) => U64Clamped(id)
  }

  /** AvatarType is a numeric enum: R6 = 0, R15 = 1. */
  predicate AvatarTypeValid(t: int) { t == 0 || t == 1 }

  /** outfitSchema. string().max(255) counts UTF-16 code units, so a valid
      name has at most 255 characters. */
  predicate OutfitValid(o: Outfit)
    ensures OutfitValid(o) ==> |o.name| <= 255
  {
    && Utf8.Utf16Length(o.name) <= 255
    && U64Clamped(o.created) && U64Clamped(o.modified) && U64Clamped(o.lastUsed)
    && U16(o.useCount)
    && |o.tags| <= 255 && (forall i :: 0 <= i < |o.tags| ==> U8(o.tags[i]))
    && RgbValid(o.headColor) && RgbValid(o.torsoColor)
    && RgbValid(o.leftArmColor) && RgbValid(o.rightArmColor)
    && RgbValid(o.leftLegColor) && RgbValid(o.rightLegColor)
    && RbxScale(o.height) && RbxScale(o.width) && RbxScale(o.head)
    && RbxScale(o.depth) && RbxScale(o.proportion)
    && Normalized(o.bodyType)
    && AvatarTypeValid(o.avatarType)
    && (forall i :: 0 <= i < |o.assets| ==> AssetValid(o.assets[i]))
  }

  /** tagsSchema: at most 255 tags of at most 255 UTF-16 code units. */
  predicate TagsValid(tags: seq<string>)
    ensures TagsValid(tags) ==> forall i :: 0 <= i < |tags| ==> |tags[i]| <= 255
  {
    |tags| <= 255 && forall i :: 0 <= i < |tags| ==> Utf8.Utf16Length(tags[i]) <= 255
  }

  /** The assets that carry metadata, in their original order. */
  function WithMetaOf(assets: seq<Asset>): (r: seq<Asset>)
    ensures |r| <= |assets|
    ensures forall i :: 0 <= i < |r| ==> r[i].WithMeta?
    decreases |assets|
  {
    if assets == [] then []
    else
      var last := assets[|assets| - 1];
      WithMetaOf(assets[..|assets| - 1]) + (if last.WithMeta? then [last] else [])
  }

  /** The assets without metadata, in their original order. */
  function WithoutMetaOf(assets: seq<Asset>): (r: seq<Asset>)
    ensures |r| <= |assets|
    ensures forall i :: 0 <= i < |r| ==> r[i].WithoutMeta?
    decreases |assets|
  {
    if assets == [] then []
    else
      var last := assets[|assets| - 1];
      WithoutMetaOf(assets[..|assets| - 1]) + (if last.WithoutMeta? then [last] else [])
  }

  /** The two runs split the assets: every asset lands in exactly one, and
      each run is a subsequence (in order) of the assets. */
  lemma {:induction false} Partition(assets: seq<Asset>)
    ensures |WithMetaOf(assets)| + |WithoutMetaOf(assets)| == |assets|
    ensures multiset(WithMetaOf(assets)) + multiset(WithoutMetaOf(assets)) == multiset(assets)
    decreases |assets|
  {
    if assets != [] {
      var init, last := assets[..|assets| - 1], assets[|assets| - 1];
      Partition(init);
      assert assets == init + [last];
      if last.WithMeta? {
        assert WithMetaOf(assets) == WithMetaOf(init) + [last];
        assert WithoutMetaOf(assets) == WithoutMetaOf(init);
      } else {
        assert WithMetaOf(assets) == WithMetaOf(init);
        assert WithoutMetaOf(assets) == WithoutMetaOf(init) + [last];
      }
    }
  }

  /** The schema for an outfit that the v0 layout can actually hold: names
      of at most 255 UTF-8 bytes and at most 255 assets in each run, since
      both counts are stored in one byte. */
  predicate OutfitFits(o: Outfit)
  {
    && OutfitValid(o)
    && |Utf8.Encode(o.name)| <= 255
    && |WithMetaOf(o.assets)| <= 255
    && |WithoutMetaOf(o.assets)| <= 255
  }

  /** The same for the tag table: at most 255 UTF-8 bytes per tag. */
  predicate TagsFit(tags: seq<string>)
  {
    TagsValid(tags) && forall i :: 0 <= i < |tags| ==> |Utf8.Encode(tags[i])| <= 255
  }

  /** A value inside the f16 schema range never packs to an infinity. */
  lemma {:induction false} F16RangePacksFinite(x: Half.Bits32)
    requires F16Range(x)
    ensures Half.F32ToF16(x) % 0x8000 < 0x7c00
  {
    Arith.DivDiv(x, 0x80_0000, 0x100);
    assert Half.Field32(x) <= 142;
  }
}
