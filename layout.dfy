// The v0 byte layout, as functions over byte strings: what the writers
// store for each part of a wardrobe, and what the readers make of the bytes
// at an offset (a RangeError where a read would leave the buffer).

module Layout {
  import opened Results
  import opened Bytes
  import Half
  import Double
  import Utf8
  import opened Schema

  /** The fixed part of an outfit record. */
  const HeaderLen: nat := 57

  /** One asset with metadata: id, order, puffiness, position, rotation, scale. */
  const BlockLen: nat := 8 + 1 + 2 + 12 + 12 + 12

  // ---------------------------------------------------------------------
  // Encoding

  /** writef16: a float32 pattern packed to binary16, stored as a u16. */
  function F16Bytes(x: Half.Bits32): (r: seq<Byte>)
    ensures |r| == 2
  {
    LE(Half.F32ToF16(x), 2)
  }

  function RgbBytes(c: Rgb): (r: seq<Byte>)
    ensures |r| == 3
  {
    LE(c.r, 1) + LE(c.g, 1) + LE(c.b, 1)
  }

  function V3Bytes(v: V3): (r: seq<Byte>)
    ensures |r| == 12
  {
    LE(v.x, 4) + LE(v.y, 4) + LE(v.z, 4)
  }

  /** Bytes 0..25 of a record: created, modified, lastUsed, useCount. */
  function StampBytes(o: Outfit): (r: seq<Byte>)
    ensures |r| == 26
  {
    LE(o.created, 8) + LE(o.modified, 8) + LE(o.lastUsed, 8) + LE(o.useCount, 2)
  }

  /** Bytes 26..43: the six body colours. */
  function ColorBytes(o: Outfit): (r: seq<Byte>)
    ensures |r| == 18
  {
    RgbBytes(o.headColor) + RgbBytes(o.torsoColor) + RgbBytes(o.leftArmColor)
    + RgbBytes(o.rightArmColor) + RgbBytes(o.leftLegColor) + RgbBytes(o.rightLegColor)
  }

  /** Bytes 44..56: width, height, head, depth, proportion and bodyType as
      f16, then avatarType as u8. */
  function ScaleBytes(o: Outfit): (r: seq<Byte>)
    ensures |r| == 13
  {
    F16Bytes(o.width) + F16Bytes(o.height) + F16Bytes(o.head) + F16Bytes(o.depth)
    + F16Bytes(o.proportion) + F16Bytes(o.bodyType) + LE(o.avatarType, 1)
  }

  function HeaderBytes(o: Outfit): (r: seq<Byte>)
    ensures |r| == HeaderLen
  {
    StampBytes(o) + ColorBytes(o) + ScaleBytes(o)
  }

  /** A u8 byte count (taken modulo 256) followed by the UTF-8 bytes; used
      for the outfit name and for every tag of the tag table. */
  function NameBytes(name: string): (r: seq<Byte>)
    ensures |r| == 1 + |Utf8.Encode(name)|
  {
    LE(|Utf8.Encode(name)|, 1) + Utf8.Encode(name)
  }

  /** One u8 per tag id. */
  function TagIdRun(ids: seq<int>): (r: seq<Byte>)
    ensures |r| == |ids|
    decreases |ids|
  {
    if ids == [] then [] else TagIdRun(ids[..|ids| - 1]) + LE(ids[|ids| - 1], 1)
  }

  function TagIdsBytes(ids: seq<int>): (r: seq<Byte>)
    ensures |r| == 1 + |ids|
  {
    LE(|ids|, 1) + TagIdRun(ids)
  }

  /** The u64 ids of a run of assets. */
  function IdRun(run: seq<Asset>): (r: seq<Byte>)
    ensures |r| == 8 * |run|
    decreases |run|
  {
    if run == [] then [] else IdRun(run[..|run| - 1]) + LE(run[|run| - 1].id, 8)
  }

  function BlockBytes(a: Asset): (r: seq<Byte>)
    requires a.WithMeta?
    ensures |r| == BlockLen
  {
    LE(a.id, 8) + LE(a.order, 1) + F16Bytes(a.puffiness)
    + V3Bytes(a.position) + V3Bytes(a.rotation) + V3Bytes(a.scale)
  }

  function BlockRun(run: seq<Asset>): (r: seq<Byte>)
    requires forall i :: 0 <= i < |run| ==> run[i].WithMeta?
    ensures |r| == BlockLen * |run|
    decreases |run|
  {
    if run == [] then [] else BlockRun(run[..|run| - 1]) + BlockBytes(run[|run| - 1])
  }

  /** The two run counts (with metadata, then without), the ids of the run
      without metadata, then the blocks of the run with metadata. */
  function AssetsBytes(assets: seq<Asset>): (r: seq<Byte>)
    ensures |r| == 2 + 8 * |WithoutMetaOf(assets)| + BlockLen * |WithMetaOf(assets)|
  {
    var with, without := WithMetaOf(assets), WithoutMetaOf(assets);
    LE(|with|, 1) + LE(|without|, 1) + IdRun(without) + BlockRun(with)
  }

  function ThumbnailBytes(t: seq<Byte>): (r: seq<Byte>)
    ensures |r| == 4 + |t|
  {
    LE(|t|, 4) + t
  }

  /** One outfit record. Its length is the one calcOutfitLen computes. */
  function OutfitBytes(o: Outfit): (r: seq<Byte>)
    ensures |r| == HeaderLen + (1 + |Utf8.Encode(o.name)|) + (1 + |o.tags|)
      + (2 + BlockLen * |WithMetaOf(o.assets)| + 8 * |WithoutMetaOf(o.assets)|)
      + (4 + |o.thumbnail|)
  {
    HeaderBytes(o) + NameBytes(o.name) + TagIdsBytes(o.tags) + AssetsBytes(o.assets)
    + ThumbnailBytes(o.thumbnail)
  }

  /** The total UTF-8 size of some strings. */
  function Utf8Total(tags: seq<string>): nat
    decreases |tags|
  {
    if tags == [] then 0 else Utf8Total(tags[..|tags| - 1]) + |Utf8.Encode(tags[|tags| - 1])|
  }

  /** The stored form of each tag. */
  function TagEntries(tags: seq<string>): (r: seq<seq<Byte>>)
    ensures |r| == |tags| && forall i {:trigger r[i]} :: 0 <= i < |tags| ==> r[i] == NameBytes(tags[i])
  {
    seq(|tags|, i requires 0 <= i < |tags| => NameBytes(tags[i]))
  }

  function TagListBytes(tags: seq<string>): (r: seq<Byte>)
    ensures |r| == |tags| + Utf8Total(tags)
  {
    TagListLength(tags);
    Join(TagEntries(tags))
  }

  lemma {:induction false} TagListLength(tags: seq<string>)
    ensures |Join(TagEntries(tags))| == |tags| + Utf8Total(tags)
    decreases |tags|
  {
    if tags != [] {
      var init := tags[..|tags| - 1];
      TagListLength(init);
      assert TagEntries(tags) == TagEntries(init) + [NameBytes(tags[|tags| - 1])];
      JoinSnoc(TagEntries(init), NameBytes(tags[|tags| - 1]));
    }
  }

  /** The tag table: a u8 count, then each tag. Its length is the one
      calcTagsLen computes. */
  function TagsBytes(tags: seq<string>): (r: seq<Byte>)
    ensures |r| == 1 + |tags| + Utf8Total(tags)
  {
    LE(|tags|, 1) + TagListBytes(tags)
  }

  /** Outfit records back to back. */
  function OutfitRun(os: seq<Outfit>): (r: seq<Byte>)
  {
    Join(Records(os))
  }

  /** The stored form of each outfit. */
  function Records(os: seq<Outfit>): (r: seq<seq<Byte>>)
    ensures |r| == |os| && forall i {:trigger r[i]} :: 0 <= i < |os| ==> r[i] == OutfitBytes(os[i])
  {
    seq(|os|, i requires 0 <= i < |os| => OutfitBytes(os[i]))
  }

  /** A whole v0 file: version 0 as a u16, the tag table, the records. */
  function WardrobeBytes(tags: seq<string>, os: seq<Outfit>): (r: seq<Byte>)
    ensures |r| == 2 + |TagsBytes(tags)| + |OutfitRun(os)|
    ensures r[0] == 0 && r[1] == 0
  {
    LE(0, 2) + TagsBytes(tags) + OutfitRun(os)
  }

  // ---------------------------------------------------------------------
  // Decoding

  // The readers of a fixed-size group of fields (an RGB24, a Vector3, an
  // asset block, the 57-byte record header) read contiguous bytes, so the
  // group fails exactly when its last byte lies past the end. Each group is
  // read by one bounds check followed by the total readers below.

  /** readRGB24, once its three bytes are known to be there. */
  function RgbOf(s: seq<Byte>, p: nat): Rgb
    requires p + 3 <= |s|
  {
    Rgb(s[p], s[p + 1], s[p + 2])
  }

  /** readf32, giving the float32 pattern. */
  function F32Of(s: seq<Byte>, p: nat): Half.Bits32
    requires p + 4 <= |s|
  {
    Pow256Values();
    DigitsAt(s, p, p + 4)
  }

  /** readf16: the float32 pattern of the number f16tof32 gives. */
  function F16Of(s: seq<Byte>, p: nat): Half.Bits32
    requires p + 2 <= |s|
  {
    Pow256Values();
    Half.HalfToSingle(DigitsAt(s, p, p + 2))
  }

  /** readV3F32B96. */
  function V3Of(s: seq<Byte>, p: nat): V3
    requires p + 12 <= |s|
  {
    V3(F32Of(s, p), F32Of(s, p + 4), F32Of(s, p + 8))
  }

  /** A u64 field as the codec reads it: readu64's BigInt passed through
      Number(), so values above 2^53 are rounded to the nearest double. */
  function U64Of(s: seq<Byte>, p: nat): (r: nat)
    requires p + 8 <= |s|
    ensures DigitsAt(s, p, p + 8) <= Schema.MaxSafeInteger ==> r == DigitsAt(s, p, p + 8)
  {
    Double.Nearest(DigitsAt(s, p, p + 8))
  }

  /** One asset block of readAssets: id, order, puffiness, position,
      rotation and scale at offsets 0, 8, 9, 11, 23 and 35. */
  function BlockOf(s: seq<Byte>, p: nat): (r: Asset)
    requires p + BlockLen <= |s|
    ensures r.WithMeta?
  {
    WithMeta(U64Of(s, p), s[p + 8], F16Of(s, p + 9),
             V3Of(s, p + 11), V3Of(s, p + 23), V3Of(s, p + 35))
  }

  /** The n ids of a run without metadata starting at p. */
  function IdsAt(s: seq<Byte>, p: nat, n: nat): (r: Result<seq<Asset>>)
    ensures r.Ok? <==> n == 0 || p + 8 * n <= |s|
    ensures r.Ok? ==> |r.value| == n && forall i :: 0 <= i < n ==> r.value[i].WithoutMeta?
  {
    if n == 0 || p + 8 * n <= |s| then
      Ok(seq(n, i requires 0 <= i < n => WithoutMeta(U64Of(s, p + 8 * i))))
    else RangeError
  }

  /** Id i of a run read by IdsAt. */
  lemma {:induction false} IdsAtIndex(s: seq<Byte>, p: nat, n: nat, i: nat)
    requires IdsAt(s, p, n).Ok? && i < n
    ensures p + 8 * i + 8 <= |s|
    ensures IdsAt(s, p, n).value[i] == WithoutMeta(U64Of(s, p + 8 * i))
  {
  }

  /** The n blocks of a run with metadata starting at p. */
  function BlocksAt(s: seq<Byte>, p: nat, n: nat): (r: Result<seq<Asset>>)
    ensures r.Ok? <==> n == 0 || p + BlockLen * n <= |s|
    ensures r.Ok? ==> |r.value| == n && forall i :: 0 <= i < n ==> r.value[i].WithMeta?
  {
    if n == 0 || p + BlockLen * n <= |s| then
      Ok(seq(n, i requires 0 <= i < n => BlockOf(s, p + BlockLen * i)))
    else RangeError
  }

  /** Block i of a run read by BlocksAt. */
  lemma {:induction false} BlocksAtIndex(s: seq<Byte>, p: nat, n: nat, i: nat)
    requires BlocksAt(s, p, n).Ok? && i < n
    ensures p + BlockLen * i + BlockLen <= |s|
    ensures BlocksAt(s, p, n).value[i] == BlockOf(s, p + BlockLen * i)
  {
  }

  /** The record header of readOutfit, completed by the variable-length
      fields b (the name decoded from its UTF-8 bytes): the stamps at 0, 8, 16 and 24, the colours from 26, the
      scales from 44 (width first) and avatarType at 56. */
  function HeaderOf(s: seq<Byte>, p: nat, b: Body): Outfit
    requires p + HeaderLen <= |s|
  {
    Outfit(Utf8.Decode(b.name), U64Of(s, p), U64Of(s, p + 8), U64Of(s, p + 16),
           DigitsAt(s, p + 24, p + 26), b.tags,
           RgbOf(s, p + 26), RgbOf(s, p + 29), RgbOf(s, p + 32),
           RgbOf(s, p + 35), RgbOf(s, p + 38), RgbOf(s, p + 41),
           F16Of(s, p + 46), F16Of(s, p + 44), F16Of(s, p + 48), F16Of(s, p + 50),
           F16Of(s, p + 52), F16Of(s, p + 54), s[p + 56], b.assets, b.thumbnail)
  }

  /** readName: a u8 byte count n, then n UTF-8 bytes; the bytes and 1 + n.
      The bytes are decoded by the reader of the record or of the tag table
      (the decoder replaces malformed input and cannot fail, so decoding
      after the read gives what decoding inside it does). */
  function NameAt(s: seq<Byte>, p: nat): (r: Result<(seq<Byte>, nat)>)
    ensures r.Ok? <==> p < |s| && p + 1 + s[p] <= |s|
    ensures r.Ok? ==> r.value.1 == 1 + s[p] as int && |r.value.0| == s[p] as int
  {
    if p < |s| && p + 1 + s[p] <= |s| then Ok((Sub(s, p + 1, s[p]), 1 + s[p] as int))
    else RangeError
  }

  /** readTagIds: a u8 count n, then n u8 tag ids; the ids and 1 + n. */
  function TagIdsAt(s: seq<Byte>, p: nat): (r: Result<(seq<int>, nat)>)
    ensures r.Ok? <==> p < |s| && p + 1 + s[p] <= |s|
    ensures r.Ok? ==> |r.value.0| == s[p] as int && r.value.1 == 1 + s[p] as int
    ensures r.Ok? ==> forall i :: 0 <= i < |r.value.0| ==> r.value.0[i] == s[p + 1 + i]
  {
    if p < |s| && p + 1 + s[p] <= |s| then Ok((Sub(s, p + 1, s[p]), 1 + s[p] as int))
    else RangeError
  }

  /** readAssets: the run without metadata, then the run with it, and the
      number of bytes they take. */
  function AssetsAt(s: seq<Byte>, p: nat): (r: Result<(seq<Asset>, nat)>)
  {
    if p + 1 < |s| then RunsAt(s, p + 2, s[p], s[p + 1]) else RangeError
  }

  /** The two runs after the counts: withoutLen ids, then withLen blocks. */
  function RunsAt(s: seq<Byte>, p: nat, withLen: nat, withoutLen: nat): (r: Result<(seq<Asset>, nat)>)
  {
    match IdsAt(s, p, withoutLen)
    case RangeError => RangeError
    case Ok(without) =>
      match BlocksAt(s, p + 8 * withoutLen, withLen)
      case RangeError => RangeError
      case Ok(with) => Ok((without + with, 2 + 8 * withoutLen + BlockLen * withLen))
  }

  /** readThumbnail: a u32 length, then that many bytes, cut short by the
      end of the buffer (slice clamps) rather than failing. */
  function ThumbnailAt(s: seq<Byte>, p: nat): (r: Result<seq<Byte>>)
    ensures r.Ok? <==> p + 4 <= |s|
    ensures r.Ok? ==> |r.value| <= |s| - (p + 4)
  {
    if p + 4 <= |s| then Ok(SliceRange(s, p + 4, p + 4 + DigitsAt(s, p, p + 4))) else RangeError
  }

  /** readOutfit: the 57-byte header, then the variable-length fields. */
  function OutfitAt(s: seq<Byte>, p: nat): (r: Result<Outfit>)
    ensures r.Ok? ==> p + HeaderLen <= |s|
  {
    if p + HeaderLen <= |s| then
      match BodyAt(s, p + HeaderLen)
      case RangeError => RangeError
      case Ok(body) => Ok(HeaderOf(s, p, body))
    else RangeError
  }

  /** The variable-length part of a record, each field read where the
      previous one ends. */
  datatype Body = Body(name: seq<Byte>, tags: seq<int>, assets: seq<Asset>, thumbnail: seq<Byte>)

  function BodyAt(s: seq<Byte>, p: nat): (r: Result<Body>)
  {
    match NameAt(s, p)
    case RangeError => RangeError
    case Ok(name) =>
      match AfterNameAt(s, p + name.1)
      case RangeError => RangeError
      case Ok(rest) => Ok(rest.(name := name.0))
  }

  function AfterNameAt(s: seq<Byte>, p: nat): (r: Result<Body>)
  {
    match TagIdsAt(s, p)
    case RangeError => RangeError
    case Ok(tags) =>
      match AfterTagsAt(s, p + tags.1)
      case RangeError => RangeError
      case Ok(rest) => Ok(rest.(tags := tags.0))
  }

  function AfterTagsAt(s: seq<Byte>, p: nat): (r: Result<Body>)
  {
    match AssetsAt(s, p)
    case RangeError => RangeError
    case Ok(assets) =>
      match ThumbnailAt(s, p + assets.1)
      case RangeError => RangeError
      case Ok(thumbnail) => Ok(Body([], [], assets.0, thumbnail))
  }

  /** readOutfitLen: 0 as soon as a count field would start at or past the
      end; otherwise the record length the counts give. Only the final u32
      read can fail. */
  function OutfitLenAt(s: seq<Byte>, p: nat): (r: Result<nat>)
    ensures p + HeaderLen >= |s| ==> r == Ok(0)
    ensures r.Ok? && r.value != 0 ==> r.value >= 65 && p + HeaderLen < |s|
  {
    if p + HeaderLen >= |s| then Ok(0)
    else
      var nameLen := 1 + s[p + HeaderLen] as int;
      if p + HeaderLen + nameLen >= |s| then Ok(0)
      else
        var tagsLen := 1 + s[p + HeaderLen + nameLen] as int;
        if p + HeaderLen + nameLen + tagsLen >= |s| then Ok(0)
        else
          var withLen := s[p + HeaderLen + nameLen + tagsLen] as int;
          if p + HeaderLen + nameLen + tagsLen + 1 >= |s| then Ok(0)
          else
            var withoutLen := s[p + HeaderLen + nameLen + tagsLen + 1] as int;
            var assetsLen := 2 + BlockLen * withLen + 8 * withoutLen;
            if p + HeaderLen + nameLen + tagsLen + assetsLen >= |s| then Ok(0)
            else
              var q := p + HeaderLen + nameLen + tagsLen + assetsLen;
              if q + 4 <= |s| then Ok(HeaderLen + nameLen + tagsLen + assetsLen + (4 + DigitsAt(s, q, q + 4)))
              else RangeError
  }

  /** k tag-table entries from p: their UTF-8 bytes and the bytes they take. */
  function TagEntriesAt(s: seq<Byte>, p: nat, k: nat): (r: Result<(seq<seq<Byte>>, nat)>)
    ensures r.Ok? ==> |r.value.0| == k
    decreases k
  {
    if k == 0 then Ok(([], 0))
    else
      match NameAt(s, p)
      case RangeError => RangeError
      case Ok(first) =>
        match TagEntriesAt(s, p + first.1, k - 1)
        case RangeError => RangeError
        case Ok(rest) => Ok(([first.0] + rest.0, first.1 + rest.1))
  }

  /** Each entry decoded from UTF-8. */
  function DecodeAll(raw: seq<seq<Byte>>): (r: seq<string>)
    ensures |r| == |raw| && forall i {:trigger r[i]} :: 0 <= i < |raw| ==> r[i] == Utf8.Decode(raw[i])
  {
    seq(|raw|, i requires 0 <= i < |raw| => Utf8.Decode(raw[i]))
  }

  /** readTags: a u8 count, then that many entries. */
  function TagsAt(s: seq<Byte>, p: nat): (r: Result<(seq<string>, nat)>)
    ensures r.Ok? ==> |r.value.0| < 256
  {
    if p < |s| then
      match TagEntriesAt(s, p + 1, s[p])
      case RangeError => RangeError
      case Ok(entries) => Ok((DecodeAll(entries.0), 1 + entries.1))
    else RangeError
  }

  /** A length reader that never gives a positive length at or past the
      end, so that a loop stepping by its lengths advances. */
  ghost predicate Advances(lenAt: (seq<Byte>, nat) -> Result<nat>)
  {
    forall t: seq<Byte>, q: nat :: lenAt(t, q).Ok? && lenAt(t, q).value != 0 ==> q < |t|
  }

  /** The decode loop from p over its two readers: a record at each offset
      until lenAt gives 0, the loop moving on by the length lenAt gave. */
  function ReadLoop<T>(s: seq<Byte>, p: nat, lenAt: (seq<Byte>, nat) -> Result<nat>,
                       at: (seq<Byte>, nat) -> Result<T>): (r: Result<seq<T>>)
    requires Advances(lenAt)
    decreases |s| - p
  {
    match lenAt(s, p)
    case RangeError => RangeError
    case Ok(len) =>
      if len == 0 then Ok([])
      else
        match at(s, p)
        case RangeError => RangeError
        case Ok(o) =>
          match ReadLoop(s, p + len, lenAt, at)
          case RangeError => RangeError
          case Ok(rest) => Ok([o] + rest)
  }

  /** The offsets the loop visits: p, then on by each length lenAt gives,
      until it gives 0. */
  function Offsets(s: seq<Byte>, p: nat, lenAt: (seq<Byte>, nat) -> Result<nat>): (r: Result<seq<nat>>)
    requires Advances(lenAt)
    decreases |s| - p
  {
    match lenAt(s, p)
    case RangeError => RangeError
    case Ok(len) =>
      if len == 0 then Ok([])
      else
        match Offsets(s, p + len, lenAt)
        case RangeError => RangeError
        case Ok(rest) => Ok([p] + rest)
  }

  /** The record at each offset, or RangeError if any read fails. */
  function ReadEach<T>(s: seq<Byte>, offs: seq<nat>, at: (seq<Byte>, nat) -> Result<T>): (r: Result<seq<T>>)
    ensures r.Ok? <==> forall i :: 0 <= i < |offs| ==> at(s, offs[i]).Ok?
    ensures r.Ok? ==> |r.value| == |offs| && forall i :: 0 <= i < |offs| ==> at(s, offs[i]) == Ok(r.value[i])
  {
    if forall i :: 0 <= i < |offs| ==> at(s, offs[i]).Ok? then
      Ok(seq(|offs|, i requires 0 <= i < |offs| => at(s, offs[i]).value))
    else RangeError
  }

  /** The loop read in two passes: the offsets first, then the records. */
  function Staged<T>(s: seq<Byte>, p: nat, lenAt: (seq<Byte>, nat) -> Result<nat>,
                     at: (seq<Byte>, nat) -> Result<T>): (r: Result<seq<T>>)
    requires Advances(lenAt)
  {
    match Offsets(s, p, lenAt)
    case RangeError => RangeError
    case Ok(offs) => ReadEach(s, offs, at)
  }

  /** The two passes give what the loop gives, on every input: every read
      fails with the same RangeError, so the order of the reads does not
      matter. */
  lemma {:induction false} LoopStaged<T>(s: seq<Byte>, p: nat, lenAt: (seq<Byte>, nat) -> Result<nat>,
                                         at: (seq<Byte>, nat) -> Result<T>)
    requires Advances(lenAt)
    ensures ReadLoop(s, p, lenAt, at) == Staged(s, p, lenAt, at)
    decreases |s| - p
  {
    match lenAt(s, p)
    case RangeError =>
    case Ok(len) =>
      if len != 0 {
        LoopStaged(s, p + len, lenAt, at);
        match Offsets(s, p + len, lenAt)
        case RangeError =>
        case Ok(rest) => ReadEachCons(s, p, rest, at);
      }
  }

  /** ReadEach, split after its first offset. */
  lemma {:induction false} ReadEachCons<T>(s: seq<Byte>, p: nat, rest: seq<nat>, at: (seq<Byte>, nat) -> Result<T>)
    ensures ReadEach(s, [p] + rest, at) ==
            match at(s, p)
            case RangeError => RangeError
            case Ok(o) =>
              match ReadEach(s, rest, at)
              case RangeError => RangeError
              case Ok(tail) => Ok([o] + tail)
  {
    var offs := [p] + rest;
    assert forall i :: 0 < i < |offs| ==> offs[i] == rest[i - 1];
    match at(s, p)
    case RangeError =>
      assert offs[0] == p;
    case Ok(o) =>
      match ReadEach(s, rest, at)
      case RangeError =>
        var j :| 0 <= j < |rest| && !at(s, rest[j]).Ok?;
        assert offs[j + 1] == rest[j];
      case Ok(tail) =>
        assert ReadEach(s, offs, at).Ok?;
        assert ReadEach(s, offs, at).value == [o] + tail;
  }

  /** The decode loop of decode, with readOutfitLen and readOutfit, read in
      two passes (LoopStaged). */
  function OutfitsFrom(s: seq<Byte>, p: nat): (r: Result<seq<Outfit>>)
  {
    Staged(s, p, OutfitLenAt, OutfitAt)
  }

  /** decode: None (undefined) below 3 bytes; otherwise the wardrobe, or a
      RangeError thrown by one of the reads. */
  function DecodeAt(s: seq<Byte>): (r: Option<Result<Wardrobe>>)
    ensures r.None? <==> |s| < 3
  {
    if |s| < 3 then None
    else
      Some(
        match TagsAt(s, 2)
        case RangeError => RangeError
        case Ok(tags) =>
          match OutfitsFrom(s, 2 + tags.1)
          case RangeError => RangeError
          case Ok(outfits) => Ok(Wardrobe(DigitsAt(s, 0, 2), outfits, tags.0)))
  }

  /** safeDecode: the decoded wardrobe with its version set to 0, or None
      when decode gives undefined or throws. */
  function SafeDecodeAt(s: seq<Byte>): (r: Option<Wardrobe>)
    ensures |s| < 3 ==> r.None?
    ensures r.Some? ==> r.value.version == 0
    ensures r.Some? <==> DecodeAt(s).Some? && DecodeAt(s).value.Ok?
  {
    match DecodeAt(s)
    case None => None
    case Some(RangeError) => None
    case Some(Ok(w)) => Some(w.(version := 0))
  }
}
