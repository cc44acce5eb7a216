// The v0 wardrobe codec as the source runs it: the size calculations, the
// writers that fill one pre-sized Buffer at a running offset, and the
// decode loop. Each method is proved against the layout functions of
// Layout, whose round trip RoundTrip proves.

module Codec {
  import opened Results
  import opened Bytes
  import Half
  import Utf8
  import opened Schema
  import opened Layout
  import opened Buf
  import RoundTrip

  // ---------------------------------------------------------------------
  // Sizes

  /** calcTagsLen: the count byte, one length byte per tag and the UTF-8
      bytes of every tag. */
  method CalcTagsLen(tags: seq<string>) returns (n: nat)
    ensures n == 1 + |tags| + Utf8Total(tags)
    ensures n == |TagsBytes(tags)|
  {
    var tagsLen := 0;
    for i := 0 to |tags|
      invariant tagsLen == Utf8Total(tags[..i])
    {
      assert tags[..i + 1][..i] == tags[..i];
      tagsLen := tagsLen + |Utf8.Encode(tags[i])|;
    }
    assert tags[..|tags|] == tags;
    n := 1 + |tags| + tagsLen;
  }

  /** calcOutfitLen: the exact size of the record writeOutfit stores. */
  method CalcOutfitLen(outfit: Outfit) returns (n: nat)
    ensures n == |OutfitBytes(outfit)|
  {
    var nameLen := 1 + |Utf8.Encode(outfit.name)|;
    var tagsLen := 1 + |outfit.tags|;
    var assets := outfit.assets;
    var assetsWithMetaLen := 0;
    var assetsWithoutMetaLen := 0;
    for i := 0 to |assets|
      invariant assetsWithMetaLen == |WithMetaOf(assets[..i])|
      invariant assetsWithoutMetaLen == |WithoutMetaOf(assets[..i])|
    {
      assert assets[..i + 1][..i] == assets[..i];
      if assets[i].WithMeta? {
        assetsWithMetaLen := assetsWithMetaLen + 1;
      } else {
        assetsWithoutMetaLen := assetsWithoutMetaLen + 1;
      }
    }
    assert assets[..|assets|] == assets;
    var assetsLen := 2 + assetsWithMetaLen * (8 + 1 + 2 + 12 + 12 + 12) + assetsWithoutMetaLen * 8;
    var thumbnailLen := 4 + |outfit.thumbnail|;
    n := 57 + nameLen + tagsLen + assetsLen + thumbnailLen;
  }

  // ---------------------------------------------------------------------
  // Writers: each stores its part of the layout at offset and changes no
  // other byte of the buffer.

  /** writeV3F32B96. */
  method WriteV3(b: Buffer, offset: nat, value: V3)
    requires offset + 12 <= b.bytes.Length
    modifies b.bytes
    ensures b.bytes[..] == Splice(old(b.bytes[..]), offset, V3Bytes(value))
  {
    ghost var s0 := b.bytes[..];
    b.WriteF32(offset, value.x);
    b.WriteF32(offset + 4, value.y);
    SpliceNext(s0, offset, LE(value.x, 4), offset + 4, LE(value.y, 4));
    b.WriteF32(offset + 8, value.z);
    SpliceNext(s0, offset, LE(value.x, 4) + LE(value.y, 4), offset + 8, LE(value.z, 4));
  }

  /** writeRGB24. */
  method WriteRgb24(b: Buffer, offset: nat, color: Rgb)
    requires offset + 3 <= b.bytes.Length
    modifies b.bytes
    ensures b.bytes[..] == Splice(old(b.bytes[..]), offset, RgbBytes(color))
  {
    ghost var s0 := b.bytes[..];
    b.WriteU8(offset, color.r);
    b.WriteU8(offset + 1, color.g);
    SpliceNext(s0, offset, LE(color.r, 1), offset + 1, LE(color.g, 1));
    b.WriteU8(offset + 2, color.b);
    SpliceNext(s0, offset, LE(color.r, 1) + LE(color.g, 1), offset + 2, LE(color.b, 1));
  }

  /** writeTagIds: the count, then one byte per id; returns 1 + |tags|. */
  method WriteTagIds(b: Buffer, offset: nat, tags: seq<int>) returns (n: nat)
    requires offset + 1 + |tags| <= b.bytes.Length
    modifies b.bytes
    ensures n == 1 + |tags| == |TagIdsBytes(tags)|
    ensures b.bytes[..] == Splice(old(b.bytes[..]), offset, TagIdsBytes(tags))
  {
    ghost var s0 := b.bytes[..];
    var tagsLen := |tags|;
    b.WriteU8(offset, tagsLen);
    for i := 0 to tagsLen
      invariant b.bytes[..] == Splice(s0, offset, LE(tagsLen, 1) + TagIdRun(tags[..i]))
    {
      assert tags[..i + 1][..i] == tags[..i];
      b.WriteU8(offset + 1 + i, tags[i]);
      SpliceNext(s0, offset, LE(tagsLen, 1) + TagIdRun(tags[..i]), offset + 1 + i, LE(tags[i], 1));
    }
    assert tags[..tagsLen] == tags;
    n := 1 + tagsLen;
  }

  /** writeName: the UTF-8 bytes at offset + 1, then their count at
      offset; returns 1 + the byte count (not the character count). */
  method WriteName(b: Buffer, offset: nat, name: string) returns (n: nat)
    requires offset + 1 + |Utf8.Encode(name)| <= b.bytes.Length
    modifies b.bytes
    ensures n == 1 + |Utf8.Encode(name)| == |NameBytes(name)|
    ensures b.bytes[..] == Splice(old(b.bytes[..]), offset, NameBytes(name))
  {
    ghost var s0 := b.bytes[..];
    var nameUtf8Len := b.WriteUtf8(offset + 1, name);
    b.WriteU8(offset, nameUtf8Len);
    SpliceBefore(s0, offset, LE(nameUtf8Len, 1), Utf8.Encode(name));
    n := 1 + nameUtf8Len;
  }

  /** The block of one asset with metadata, as the second loop of
      writeAssets stores it: id, order, puffiness, position, rotation and
      scale at relative offsets 0, 8, 9, 11, 23 and 35. */
  method WriteBlock(b: Buffer, offset: nat, asset: Asset)
    requires asset.WithMeta? && offset + BlockLen <= b.bytes.Length
    modifies b.bytes
    ensures b.bytes[..] == Splice(old(b.bytes[..]), offset, BlockBytes(asset))
  {
    ghost var s0 := b.bytes[..];
    b.WriteU64(offset, asset.id);
    b.WriteU8(offset + 8, asset.order);
    SpliceNext(s0, offset, LE(asset.id, 8), offset + 8, LE(asset.order, 1));
    ghost var acc := LE(asset.id, 8) + LE(asset.order, 1);
    b.WriteF16(offset + 9, asset.puffiness);
    SpliceNext(s0, offset, acc, offset + 9, F16Bytes(asset.puffiness));
    acc := acc + F16Bytes(asset.puffiness);
    WriteV3(b, offset + 11, asset.position);
    SpliceNext(s0, offset, acc, offset + 11, V3Bytes(asset.position));
    acc := acc + V3Bytes(asset.position);
    WriteV3(b, offset + 23, asset.rotation);
    SpliceNext(s0, offset, acc, offset + 23, V3Bytes(asset.rotation));
    acc := acc + V3Bytes(asset.rotation);
    WriteV3(b, offset + 35, asset.scale);
    SpliceNext(s0, offset, acc, offset + 35, V3Bytes(asset.scale));
  }

  /** The first loop of writeAssets: the assets with metadata and those
      without, each in their original order. */
  method SplitAssets(assets: seq<Asset>) returns (withMeta: seq<Asset>, withoutMeta: seq<Asset>)
    ensures withMeta == WithMetaOf(assets) && withoutMeta == WithoutMetaOf(assets)
  {
    withMeta, withoutMeta := [], [];
    for i := 0 to |assets|
      invariant withMeta == WithMetaOf(assets[..i])
      invariant withoutMeta == WithoutMetaOf(assets[..i])
    {
      assert assets[..i + 1][..i] == assets[..i];
      if assets[i].WithMeta? {
        withMeta := withMeta + [assets[i]];
      } else {
        withoutMeta := withoutMeta + [assets[i]];
      }
    }
    assert assets[..|assets|] == assets;
  }

  /** The second loop of writeAssets: the u64 ids of the run without
      metadata, 8 bytes apart. */
  method WriteIdRun(b: Buffer, offset: nat, run: seq<Asset>)
    requires offset + 8 * |run| <= b.bytes.Length
    modifies b.bytes
    ensures b.bytes[..] == Splice(old(b.bytes[..]), offset, IdRun(run))
  {
    ghost var s0 := b.bytes[..];
    SpliceNil(s0, offset);
    for i := 0 to |run|
      invariant b.bytes[..] == Splice(s0, offset, IdRun(run[..i]))
    {
      assert run[..i + 1][..i] == run[..i];
      b.WriteU64(offset + i * 8, run[i].id);
      SpliceNext(s0, offset, IdRun(run[..i]), offset + i * 8, LE(run[i].id, 8));
    }
    assert run[..|run|] == run;
  }

  /** The third loop of writeAssets: the blocks of the run with metadata,
      BlockLen bytes apart. */
  method WriteBlockRun(b: Buffer, offset: nat, run: seq<Asset>)
    requires forall i :: 0 <= i < |run| ==> run[i].WithMeta?
    requires offset + BlockLen * |run| <= b.bytes.Length
    modifies b.bytes
    ensures b.bytes[..] == Splice(old(b.bytes[..]), offset, BlockRun(run))
  {
    ghost var s0 := b.bytes[..];
    SpliceNil(s0, offset);
    var pairLen := 8 + 1 + 2 + 12 + 12 + 12;
    for i := 0 to |run|
      invariant b.bytes[..] == Splice(s0, offset, BlockRun(run[..i]))
    {
      assert run[..i + 1][..i] == run[..i];
      WriteBlock(b, offset + i * pairLen, run[i]);
      SpliceNext(s0, offset, BlockRun(run[..i]), offset + i * pairLen, BlockBytes(run[i]));
    }
    assert run[..|run|] == run;
  }

  /** writeAssets: splits the assets into the runs with and without
      metadata, stores both counts, the ids of the run without metadata,
      then the blocks of the run with metadata; returns the bytes used. */
  method WriteAssets(b: Buffer, offset: nat, assets: seq<Asset>) returns (n: nat)
    requires offset + |AssetsBytes(assets)| <= b.bytes.Length
    modifies b.bytes
    ensures n == |AssetsBytes(assets)|
    ensures b.bytes[..] == Splice(old(b.bytes[..]), offset, AssetsBytes(assets))
  {
    ghost var s0 := b.bytes[..];
    var withMeta, withoutMeta := SplitAssets(assets);
    var withLen := |withMeta|;
    var withoutLen := |withoutMeta|;
    b.WriteU8(offset, withLen);
    b.WriteU8(offset + 1, withoutLen);
    SpliceNext(s0, offset, LE(withLen, 1), offset + 1, LE(withoutLen, 1));
    ghost var counts := LE(withLen, 1) + LE(withoutLen, 1);
    var headerLen := 2;
    WriteIdRun(b, offset + headerLen, withoutMeta);
    SpliceNext(s0, offset, counts, offset + headerLen, IdRun(withoutMeta));
    var pairLen := 8 + 1 + 2 + 12 + 12 + 12;
    WriteBlockRun(b, offset + headerLen + withoutLen * 8, withMeta);
    SpliceNext(s0, offset, counts + IdRun(withoutMeta), offset + headerLen + withoutLen * 8, BlockRun(withMeta));
    n := headerLen + withoutLen * 8 + withLen * pairLen;
  }

  /** writeThumbnail: the u32 byte count, then the bytes. */
  method WriteThumbnail(b: Buffer, offset: nat, image: seq<Byte>) returns (n: nat)
    requires offset + 4 + |image| <= b.bytes.Length
    modifies b.bytes
    ensures n == 4 + |image| == |ThumbnailBytes(image)|
    ensures b.bytes[..] == Splice(old(b.bytes[..]), offset, ThumbnailBytes(image))
  {
    ghost var s0 := b.bytes[..];
    var len := |image|;
    b.WriteU32(offset, len);
    b.Fill(offset + 4, image);
    SpliceNext(s0, offset, LE(len, 4), offset + 4, image);
    n := 4 + len;
  }

  /** writeTags: the tag count, then each tag as its UTF-8 byte count and
      bytes at a running offset; returns the bytes used. */
  method WriteTags(b: Buffer, offset: nat, tags: seq<string>) returns (n: nat)
    requires offset + |TagsBytes(tags)| <= b.bytes.Length
    modifies b.bytes
    ensures n == |TagsBytes(tags)|
    ensures b.bytes[..] == Splice(old(b.bytes[..]), offset, TagsBytes(tags))
  {
    ghost var s0 := b.bytes[..];
    ghost var entries := TagEntries(tags);
    assert |TagsBytes(tags)| == 1 + |Join(entries)|;
    var numOfTags := |tags|;
    b.WriteU8(offset, numOfTags);
    var localOffset := 1;
    assert entries[..0] == [];
    for i := 0 to numOfTags
      invariant localOffset == 1 + |Join(entries[..i])|
      invariant offset + localOffset <= b.bytes.Length
      invariant b.bytes[..] == Splice(s0, offset, LE(numOfTags, 1) + Join(entries[..i]))
    {
      ghost var cur := b.bytes[..];
      JoinPrefix(entries, i);
      JoinPrefixLength(entries, i + 1);
      var length := WriteName(b, offset + localOffset, tags[i]);
      SpliceNext(s0, offset, LE(numOfTags, 1) + Join(entries[..i]), offset + localOffset, entries[i]);
      Regroup(LE(numOfTags, 1), Join(entries[..i]), entries[i], Join(entries[..i + 1]));
      localOffset := localOffset + length;
    }
    assert entries[..numOfTags] == entries;
    n := localOffset;
  }

  /** The record header written from offset to offset + 57: the stamps,
      the six colours, the scales and avatarType, in writeOutfit's order. */
  method WriteHeader(b: Buffer, offset: nat, outfit: Outfit)
    requires offset + HeaderLen <= b.bytes.Length
    modifies b.bytes
    ensures b.bytes[..] == Splice(old(b.bytes[..]), offset, HeaderBytes(outfit))
  {
    ghost var s0 := b.bytes[..];
    b.WriteU64(offset, outfit.created);
    b.WriteU64(offset + 8, outfit.modified);
    SpliceNext(s0, offset, LE(outfit.created, 8), offset + 8, LE(outfit.modified, 8));
    ghost var acc := LE(outfit.created, 8) + LE(outfit.modified, 8);
    b.WriteU64(offset + 16, outfit.lastUsed);
    SpliceNext(s0, offset, acc, offset + 16, LE(outfit.lastUsed, 8));
    acc := acc + LE(outfit.lastUsed, 8);
    b.WriteU16(offset + 24, outfit.useCount);
    SpliceNext(s0, offset, acc, offset + 24, LE(outfit.useCount, 2));
    WriteColors(b, offset + 26, outfit);
    SpliceNext(s0, offset, StampBytes(outfit), offset + 26, ColorBytes(outfit));
    WriteScales(b, offset + 44, outfit);
    SpliceNext(s0, offset, StampBytes(outfit) + ColorBytes(outfit), offset + 44, ScaleBytes(outfit));
  }

  /** Bytes 26..43 of a record: writeRGB24 for the six colours. */
  method WriteColors(b: Buffer, offset: nat, outfit: Outfit)
    requires offset + 18 <= b.bytes.Length
    modifies b.bytes
    ensures b.bytes[..] == Splice(old(b.bytes[..]), offset, ColorBytes(outfit))
  {
    ghost var s0 := b.bytes[..];
    WriteRgb24(b, offset, outfit.headColor);
    WriteRgb24(b, offset + 3, outfit.torsoColor);
    SpliceNext(s0, offset, RgbBytes(outfit.headColor), offset + 3, RgbBytes(outfit.torsoColor));
    ghost var acc := RgbBytes(outfit.headColor) + RgbBytes(outfit.torsoColor);
    WriteRgb24(b, offset + 6, outfit.leftArmColor);
    SpliceNext(s0, offset, acc, offset + 6, RgbBytes(outfit.leftArmColor));
    acc := acc + RgbBytes(outfit.leftArmColor);
    WriteRgb24(b, offset + 9, outfit.rightArmColor);
    SpliceNext(s0, offset, acc, offset + 9, RgbBytes(outfit.rightArmColor));
    acc := acc + RgbBytes(outfit.rightArmColor);
    WriteRgb24(b, offset + 12, outfit.leftLegColor);
    SpliceNext(s0, offset, acc, offset + 12, RgbBytes(outfit.leftLegColor));
    acc := acc + RgbBytes(outfit.leftLegColor);
    WriteRgb24(b, offset + 15, outfit.rightLegColor);
    SpliceNext(s0, offset, acc, offset + 15, RgbBytes(outfit.rightLegColor));
  }

  /** Bytes 44..56 of a record: width, height, head, depth, proportion and
      bodyType as f16, then avatarType as u8. */
  method WriteScales(b: Buffer, offset: nat, outfit: Outfit)
    requires offset + 13 <= b.bytes.Length
    modifies b.bytes
    ensures b.bytes[..] == Splice(old(b.bytes[..]), offset, ScaleBytes(outfit))
  {
    ghost var s0 := b.bytes[..];
    b.WriteF16(offset, outfit.width);
    b.WriteF16(offset + 2, outfit.height);
    SpliceNext(s0, offset, F16Bytes(outfit.width), offset + 2, F16Bytes(outfit.height));
    ghost var acc := F16Bytes(outfit.width) + F16Bytes(outfit.height);
    b.WriteF16(offset + 4, outfit.head);
    SpliceNext(s0, offset, acc, offset + 4, F16Bytes(outfit.head));
    acc := acc + F16Bytes(outfit.head);
    b.WriteF16(offset + 6, outfit.depth);
    SpliceNext(s0, offset, acc, offset + 6, F16Bytes(outfit.depth));
    acc := acc + F16Bytes(outfit.depth);
    b.WriteF16(offset + 8, outfit.proportion);
    SpliceNext(s0, offset, acc, offset + 8, F16Bytes(outfit.proportion));
    acc := acc + F16Bytes(outfit.proportion);
    b.WriteF16(offset + 10, outfit.bodyType);
    SpliceNext(s0, offset, acc, offset + 10, F16Bytes(outfit.bodyType));
    acc := acc + F16Bytes(outfit.bodyType);
    b.WriteU8(offset + 12, outfit.avatarType);
    SpliceNext(s0, offset, acc, offset + 12, LE(outfit.avatarType, 1));
  }

  /** writeOutfit: the header, then name, tag ids, assets and thumbnail,
      each where the previous one ends; returns the record length, which
      is the length calcOutfitLen computes. */
  method WriteOutfit(b: Buffer, offset: nat, outfit: Outfit) returns (n: nat)
    requires offset + |OutfitBytes(outfit)| <= b.bytes.Length
    modifies b.bytes
    ensures n == |OutfitBytes(outfit)|
    ensures b.bytes[..] == Splice(old(b.bytes[..]), offset, OutfitBytes(outfit))
  {
    ghost var s0 := b.bytes[..];
    ghost var header := HeaderBytes(outfit);
    WriteHeader(b, offset, outfit);
    var nameLen := WriteName(b, offset + 57, outfit.name);
    SpliceNext(s0, offset, header, offset + 57, NameBytes(outfit.name));
    ghost var acc := header + NameBytes(outfit.name);
    var tagsLen := WriteTagIds(b, offset + 57 + nameLen, outfit.tags);
    SpliceNext(s0, offset, acc, offset + 57 + nameLen, TagIdsBytes(outfit.tags));
    acc := acc + TagIdsBytes(outfit.tags);
    var assetsLen := WriteAssets(b, offset + 57 + nameLen + tagsLen, outfit.assets);
    SpliceNext(s0, offset, acc, offset + 57 + nameLen + tagsLen, AssetsBytes(outfit.assets));
    acc := acc + AssetsBytes(outfit.assets);
    var thumbnailLen := WriteThumbnail(b, offset + 57 + nameLen + tagsLen + assetsLen, outfit.thumbnail);
    SpliceNext(s0, offset, acc, offset + 57 + nameLen + tagsLen + assetsLen, ThumbnailBytes(outfit.thumbnail));
    assert acc + ThumbnailBytes(outfit.thumbnail) == OutfitBytes(outfit);
    n := 57 + nameLen + tagsLen + assetsLen + thumbnailLen;
  }

  /** The first loop of encode: the sum of calcOutfitLen over the
      outfits. */
  method OutfitsByteLen(outfits: seq<Outfit>) returns (n: nat)
    ensures n == |OutfitRun(outfits)|
  {
    ghost var rs := Records(outfits);
    n := 0;
    for i := 0 to |outfits|
      invariant n == |Join(rs[..i])|
    {
      var outfitSize := CalcOutfitLen(outfits[i]);
      JoinPrefix(rs, i);
      n := n + outfitSize;
    }
    assert rs[..|outfits|] == rs;
  }

  /** The second loop of encode: writeOutfit for each outfit at the
      running offset, so that the records lie back to back. */
  method WriteOutfits(b: Buffer, offset: nat, outfits: seq<Outfit>)
    requires offset + |OutfitRun(outfits)| <= b.bytes.Length
    modifies b.bytes
    ensures b.bytes[..] == Splice(old(b.bytes[..]), offset, OutfitRun(outfits))
  {
    ghost var s0 := b.bytes[..];
    ghost var rs := Records(outfits);
    SpliceNil(s0, offset);
    assert rs[..0] == [];
    var outfitsByteOffset := 0;
    for i := 0 to |outfits|
      invariant outfitsByteOffset == |Join(rs[..i])| <= |Join(rs)|
      invariant b.bytes[..] == Splice(s0, offset, Join(rs[..i]))
    {
      JoinPrefix(rs, i);
      JoinPrefixLength(rs, i + 1);
      var outfitLen := WriteOutfit(b, offset + outfitsByteOffset, outfits[i]);
      SpliceNext(s0, offset, Join(rs[..i]), offset + outfitsByteOffset, rs[i]);
      outfitsByteOffset := outfitsByteOffset + outfitLen;
    }
    assert rs[..|outfits|] == rs;
  }

  /** encode: sizes the buffer exactly, writes version 0 at byte 0, the
      tag table at byte 2 and the records back to back after it. */
  method Encode(tags: seq<string>, outfits: seq<Outfit>) returns (b: Buffer)
    ensures b.bytes[..] == WardrobeBytes(tags, outfits)
  {
    var outfitsByteLen := OutfitsByteLen(outfits);
    var tagsSize := CalcTagsLen(tags);
    b := new Buffer.Create(2 + tagsSize + outfitsByteLen);
    ghost var z := b.bytes[..];
    b.WriteU16(0, 0);
    var _ := WriteTags(b, 2, tags);
    SpliceNext(z, 0, LE(0, 2), 2, TagsBytes(tags));
    WriteOutfits(b, 2 + tagsSize, outfits);
    SpliceNext(z, 0, LE(0, 2) + TagsBytes(tags), 2 + tagsSize, OutfitRun(outfits));
    SpliceWhole(z, WardrobeBytes(tags, outfits));
  }

  /** safeEncode: no buffer unless the tag table and every outfit pass
      their schemas. */
  method SafeEncode(tags: seq<string>, outfits: seq<Outfit>) returns (r: Option<Buffer>)
    ensures r.Some? <==> TagsValid(tags) && forall i :: 0 <= i < |outfits| ==> OutfitValid(outfits[i])
    ensures r.Some? ==> r.value.bytes[..] == WardrobeBytes(tags, outfits)
  {
    if !TagsValid(tags) {
      return None;
    }
    if !(forall i :: 0 <= i < |outfits| ==> OutfitValid(outfits[i])) {
      return None;
    }
    var b := Encode(tags, outfits);
    return Some(b);
  }

  // ---------------------------------------------------------------------
  // Decoding

  /** Tag-table entries already read, in front of the outcome of reading
      the rest (their bytes and the bytes they take). */
  function Glue(pre: seq<seq<Byte>>, n: nat, rest: Result<(seq<seq<Byte>>, nat)>): (r: Result<(seq<seq<Byte>>, nat)>)
    ensures r.Ok? <==> rest.Ok?
  {
    match rest
    case RangeError => RangeError
    case Ok(entries) => Ok((pre + entries.0, n + entries.1))
  }

  /** Reading one more entry of the tag table moves it in front (q2, k2
      and n2 are where the rest starts, how many are left and the bytes
      taken so far). */
  lemma {:induction false} GlueStep(s: seq<Byte>, q: nat, k: nat, pre: seq<seq<Byte>>, n: nat, first: (seq<Byte>, nat),
                                     q2: nat, k2: nat, n2: nat)
    requires k > 0 && NameAt(s, q) == Ok(first)
    requires q2 == q + first.1 && k2 == k - 1 && n2 == n + first.1
    ensures Glue(pre, n, TagEntriesAt(s, q, k)) == Glue(pre + [first.0], n2, TagEntriesAt(s, q2, k2))
  {
    match TagEntriesAt(s, q2, k2)
    case RangeError =>
    case Ok(rest) =>
      assert pre + ([first.0] + rest.0) == pre + [first.0] + rest.0;
  }

  /** The entries decoded, one more. */
  lemma {:induction false} DecodeAllSnoc(raw: seq<seq<Byte>>, e: seq<Byte>, str: string)
    requires str == Utf8.Decode(e)
    ensures DecodeAll(raw + [e]) == DecodeAll(raw) + [str]
  {
  }

  /** Nothing read yet. */
  lemma {:induction false} GlueNil(rest: Result<(seq<seq<Byte>>, nat)>)
    ensures Glue([], 0, rest) == rest
  {
    match rest
    case RangeError =>
    case Ok(entries) => assert [] + entries.0 == entries.0;
  }

  /** No entry left to read. */
  lemma {:induction false} GlueEnd(s: seq<Byte>, q: nat, pre: seq<seq<Byte>>, n: nat)
    ensures Glue(pre, n, TagEntriesAt(s, q, 0)) == Ok((pre, n))
  {
    assert pre + [] == pre;
  }

  /** An entry whose read throws makes the whole table throw. */
  lemma {:induction false} GlueFail(s: seq<Byte>, q: nat, k: nat, pre: seq<seq<Byte>>, n: nat)
    requires k > 0 && NameAt(s, q).RangeError?
    ensures Glue(pre, n, TagEntriesAt(s, q, k)) == RangeError
  {
  }

  /** readName: a u8 byte count, then that many bytes decoded from UTF-8;
      the name and the bytes taken. A read past the end throws. */
  method ReadName(b: Buffer, offset: nat) returns (r: Result<(string, nat)>)
    ensures r.Ok? <==> NameAt(b.bytes[..], offset).Ok?
    ensures r.Ok? ==> (r.value.0 == Utf8.Decode(NameAt(b.bytes[..], offset).value.0)
                       && r.value.1 == NameAt(b.bytes[..], offset).value.1)
  {
    ghost var s := b.bytes[..];
    var nameUtf8Len := b.ReadU8(offset);
    if nameUtf8Len.RangeError? {
      return RangeError;
    }
    var name := b.ReadUtf8(offset + 1, nameUtf8Len.value);
    if name.RangeError? {
      return RangeError;
    }
    SubSlice(s, offset + 1, nameUtf8Len.value);
    return Ok((name.value, 1 + nameUtf8Len.value));
  }

  /** readTags: the count, then for each tag its byte count and its bytes,
      decoded from UTF-8, at a running offset; a read past the end throws. */
  method ReadTags(b: Buffer, offset: nat) returns (r: Result<(seq<string>, nat)>)
    ensures r == TagsAt(b.bytes[..], offset)
  {
    ghost var s := b.bytes[..];
    var count := b.ReadU8(offset);
    if count.RangeError? {
      return RangeError;
    }
    var tagCount := count.value;
    var tags: seq<string> := [];
    ghost var raw: seq<seq<Byte>> := [];
    var localOffset := 1;
    GlueNil(TagEntriesAt(s, offset + 1, tagCount));
    for i := 0 to tagCount
      invariant |raw| == i && tags == DecodeAll(raw) && localOffset >= 1
      invariant TagEntriesAt(s, offset + 1, tagCount)
        == Glue(raw, localOffset - 1, TagEntriesAt(s, offset + localOffset, tagCount - i))
    {
      var entry := ReadName(b, offset + localOffset);
      if entry.RangeError? {
        GlueFail(s, offset + localOffset, tagCount - i, raw, localOffset - 1);
        return RangeError;
      }
      ghost var first := NameAt(s, offset + localOffset).value;
      var next := localOffset + entry.value.1;
      GlueStep(s, offset + localOffset, tagCount - i, raw, localOffset - 1, first,
               offset + next, tagCount - (i + 1), next - 1);
      DecodeAllSnoc(raw, first.0, entry.value.0);
      tags := tags + [entry.value.0];
      raw := raw + [first.0];
      localOffset := next;
    }
    GlueEnd(s, offset + localOffset, raw, localOffset - 1);
    return Ok((tags, localOffset));
  }

  /** Records already read, in front of the outcome of reading the rest. */
  function Prefixed<T>(pre: seq<T>, rest: Result<seq<T>>): (r: Result<seq<T>>)
    ensures r.Ok? <==> rest.Ok?
  {
    match rest
    case RangeError => RangeError
    case Ok(items) => Ok(pre + items)
  }

  /** Nothing read yet. */
  lemma {:induction false} PrefixedNil<T>(rest: Result<seq<T>>)
    ensures Prefixed([], rest) == rest
  {
    match rest
    case RangeError =>
    case Ok(items) => assert [] + items == items;
  }

  /** One more turn of the decode loop moves the record read in front. */
  lemma {:induction false} PrefixedStep<T>(s: seq<Byte>, q: nat, len: nat, d: T, pre: seq<T>,
                                            lenAt: (seq<Byte>, nat) -> Result<nat>, at: (seq<Byte>, nat) -> Result<T>)
    requires Advances(lenAt) && lenAt(s, q) == Ok(len) && len != 0 && at(s, q) == Ok(d)
    ensures Prefixed(pre, ReadLoop(s, q, lenAt, at)) == Prefixed(pre + [d], ReadLoop(s, q + len, lenAt, at))
  {
    match ReadLoop(s, q + len, lenAt, at)
    case RangeError =>
    case Ok(rest) =>
      assert pre + ([d] + rest) == pre + [d] + rest;
  }

  /** The decode loop over its two readers: lenAt, and while it does not
      give 0, a record by at and a step by the length lenAt gave. */
  method ReadRecords<T>(b: Buffer, start: nat, lenAt: (seq<Byte>, nat) -> Result<nat>,
                        at: (seq<Byte>, nat) -> Result<T>) returns (r: Result<seq<T>>)
    requires Advances(lenAt)
    ensures r == ReadLoop(b.bytes[..], start, lenAt, at)
  {
    ghost var s := b.bytes[..];
    var records: seq<T> := [];
    var offset := start;
    PrefixedNil(ReadLoop(s, start, lenAt, at));
    while true
      invariant ReadLoop(s, start, lenAt, at) == Prefixed(records, ReadLoop(s, offset, lenAt, at))
      decreases |s| - offset
    {
      var recordLen := lenAt(b.bytes[..], offset);
      if recordLen.RangeError? {
        return RangeError;
      }
      if recordLen.value == 0 {
        break;
      }
      var record := at(b.bytes[..], offset);
      if record.RangeError? {
        return RangeError;
      }
      PrefixedStep(s, offset, recordLen.value, record.value, records, lenAt, at);
      records := records + [record.value];
      offset := offset + recordLen.value;
    }
    assert records + [] == records;
    return Ok(records);
  }

  /** The outfit loop of decode: readOutfitLen, and while it is not 0,
      readOutfit and a step by that length. */
  method ReadOutfits(b: Buffer, start: nat) returns (r: Result<seq<Outfit>>)
    ensures r == OutfitsFrom(b.bytes[..], start)
  {
    RoundTrip.LengthReader();
    r := ReadRecords(b, start, OutfitLenAt, OutfitAt);
    LoopStaged(b.bytes[..], start, OutfitLenAt, OutfitAt);
  }

  /** decode: undefined below 3 bytes; otherwise the version, the tag table
      at 2 and the records after it, unless a read throws. */
  method Decode(data: array<Byte>) returns (r: Option<Result<Wardrobe>>)
    ensures r == DecodeAt(data[..])
  {
    var b := new Buffer.From(data);
    if b.bytes.Length < 3 {
      return None;
    }
    var version := b.ReadU16(0).value;
    assert version == DigitsAt(data[..], 0, 2);
    var tagsRead := ReadTags(b, 2);
    if tagsRead.RangeError? {
      return Some(RangeError);
    }
    var tags := tagsRead.value.0;
    var tagsLen := tagsRead.value.1;
    var outfits := ReadOutfits(b, 2 + tagsLen);
    if outfits.RangeError? {
      return Some(RangeError);
    }
    return Some(Ok(Wardrobe(version, outfits.value, tags)));
  }

  /** safeDecode: the wardrobe with version 0, or nothing when decode
      gives undefined or throws. */
  method SafeDecode(data: array<Byte>) returns (r: Option<Wardrobe>)
    ensures r == SafeDecodeAt(data[..])
  {
    var decoded := Decode(data);
    if decoded.Some? && decoded.value.Ok? {
      return Some(decoded.value.value.(version := 0));
    }
    return None;
  }
}
