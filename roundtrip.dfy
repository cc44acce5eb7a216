// What a wardrobe written by the v0 encoder reads back as: half-precision
// fields come back quantized, assets come back grouped (the run without
// metadata first), and a leading U+FEFF of a name or tag is dropped by the
// UTF-8 decoder; everything else is identical.

module RoundTrip {
  import opened Results
  import opened Bytes
  import Half
  import Utf8
  import opened Schema
  import opened Layout

  /** An asset as stored and read back: puffiness goes through binary16. */
  function DecodedAsset(a: Asset): (r: Asset)
    ensures r.WithMeta? == a.WithMeta? && r.id == a.id
  {
    match a
    case WithMeta(_, _, puffiness, _, _, _) => a.(puffiness := Half.Quantize(puffiness))
    case WithoutMeta(_) => a
  }

  function DecodedAssets(run: seq<Asset>): (r: seq<Asset>)
    ensures |r| == |run| && forall i {:trigger r[i]} :: 0 <= i < |run| ==> r[i] == DecodedAsset(run[i])
  {
    seq(|run|, i requires 0 <= i < |run| => DecodedAsset(run[i]))
  }

  /** An outfit as stored and read back. */
  function Decoded(o: Outfit): Outfit
  {
    o.(name := Utf8.StripBom(o.name),
       width := Half.Quantize(o.width), height := Half.Quantize(o.height),
       head := Half.Quantize(o.head), depth := Half.Quantize(o.depth),
       proportion := Half.Quantize(o.proportion), bodyType := Half.Quantize(o.bodyType),
       assets := WithoutMetaOf(o.assets) + DecodedAssets(WithMetaOf(o.assets)))
  }

  function DecodedRun(os: seq<Outfit>): (r: seq<Outfit>)
    ensures |r| == |os| && forall i {:trigger r[i]} :: 0 <= i < |os| ==> r[i] == Decoded(os[i])
  {
    seq(|os|, i requires 0 <= i < |os| => Decoded(os[i]))
  }

  function StoredTags(tags: seq<string>): (r: seq<string>)
    ensures |r| == |tags| && forall i {:trigger r[i]} :: 0 <= i < |tags| ==> r[i] == Utf8.StripBom(tags[i])
  {
    seq(|tags|, i requires 0 <= i < |tags| => Utf8.StripBom(tags[i]))
  }

  /** What the encoder can store faithfully: the corrected schema and a
      thumbnail whose length fits the u32 field. */
  predicate Storable(o: Outfit)
  {
    OutfitFits(o) && |o.thumbnail| < 0x1_0000_0000
  }

  // ---- Fixed fields ----

  lemma {:induction false} RgbRead(s: seq<Byte>, p: nat, c: Rgb)
    requires At(s, p, RgbBytes(c)) && RgbValid(c)
    ensures p + 3 <= |s| && RgbOf(s, p) == c
  {
    AtConcat(s, p, LE(c.r, 1) + LE(c.g, 1), LE(c.b, 1));
    AtConcat(s, p, LE(c.r, 1), LE(c.g, 1));
    Read1(s, p, c.r);
    Read1(s, p + 1, c.g);
    Read1(s, p + 2, c.b);
  }

  lemma {:induction false} V3Read(s: seq<Byte>, p: nat, v: V3)
    requires At(s, p, V3Bytes(v))
    ensures p + 12 <= |s| && V3Of(s, p) == v
  {
    AtConcat(s, p, LE(v.x, 4) + LE(v.y, 4), LE(v.z, 4));
    AtConcat(s, p, LE(v.x, 4), LE(v.y, 4));
    Read4(s, p, v.x);
    Read4(s, p + 4, v.y);
    Read4(s, p + 8, v.z);
  }

  lemma {:induction false} F16Read(s: seq<Byte>, p: nat, x: Half.Bits32)
    requires At(s, p, F16Bytes(x))
    ensures p + 2 <= |s| && F16Of(s, p) == Half.Quantize(x)
  {
    Read2(s, p, Half.F32ToF16(x));
  }

  /** Bytes 0..25 of a record read back as the stamps and the use count. */
  lemma {:induction false} StampsRead(s: seq<Byte>, p: nat, o: Outfit)
    requires At(s, p, StampBytes(o))
    requires U64Clamped(o.created) && U64Clamped(o.modified) && U64Clamped(o.lastUsed) && U16(o.useCount)
    ensures p + 26 <= |s|
    ensures U64Of(s, p) == o.created && U64Of(s, p + 8) == o.modified
    ensures U64Of(s, p + 16) == o.lastUsed && DigitsAt(s, p + 24, p + 26) == o.useCount
  {
    var a, b, c, d := LE(o.created, 8), LE(o.modified, 8), LE(o.lastUsed, 8), LE(o.useCount, 2);
    AtConcat(s, p, a + b + c, d);
    AtConcat(s, p, a + b, c);
    AtConcat(s, p, a, b);
    Read8(s, p, o.created);
    Read8(s, p + 8, o.modified);
    Read8(s, p + 16, o.lastUsed);
    Read2(s, p + 24, o.useCount);
  }

  /** Bytes 26..43 read back as the six colours. */
  lemma {:induction false} ColorsRead(s: seq<Byte>, p: nat, o: Outfit)
    requires At(s, p, ColorBytes(o))
    requires RgbValid(o.headColor) && RgbValid(o.torsoColor) && RgbValid(o.leftArmColor)
    requires RgbValid(o.rightArmColor) && RgbValid(o.leftLegColor) && RgbValid(o.rightLegColor)
    ensures p + 18 <= |s|
    ensures RgbOf(s, p) == o.headColor && RgbOf(s, p + 3) == o.torsoColor
    ensures RgbOf(s, p + 6) == o.leftArmColor && RgbOf(s, p + 9) == o.rightArmColor
    ensures RgbOf(s, p + 12) == o.leftLegColor && RgbOf(s, p + 15) == o.rightLegColor
  {
    var a, b, c := RgbBytes(o.headColor), RgbBytes(o.torsoColor), RgbBytes(o.leftArmColor);
    var d, e, f := RgbBytes(o.rightArmColor), RgbBytes(o.leftLegColor), RgbBytes(o.rightLegColor);
    AtConcat(s, p, a + b + c + d + e, f);
    AtConcat(s, p, a + b + c + d, e);
    AtConcat(s, p, a + b + c, d);
    AtConcat(s, p, a + b, c);
    AtConcat(s, p, a, b);
    RgbRead(s, p, o.headColor);
    RgbRead(s, p + 3, o.torsoColor);
    RgbRead(s, p + 6, o.leftArmColor);
    RgbRead(s, p + 9, o.rightArmColor);
    RgbRead(s, p + 12, o.leftLegColor);
    RgbRead(s, p + 15, o.rightLegColor);
  }

  /** Bytes 44..56 read back as the quantized scales and the avatar type. */
  lemma {:induction false} ScalesRead(s: seq<Byte>, p: nat, o: Outfit)
    requires At(s, p, ScaleBytes(o)) && AvatarTypeValid(o.avatarType)
    ensures p + 13 <= |s|
    ensures F16Of(s, p) == Half.Quantize(o.width) && F16Of(s, p + 2) == Half.Quantize(o.height)
    ensures F16Of(s, p + 4) == Half.Quantize(o.head) && F16Of(s, p + 6) == Half.Quantize(o.depth)
    ensures F16Of(s, p + 8) == Half.Quantize(o.proportion) && F16Of(s, p + 10) == Half.Quantize(o.bodyType)
    ensures s[p + 12] == o.avatarType
  {
    var a, b, c := F16Bytes(o.width), F16Bytes(o.height), F16Bytes(o.head);
    var d, e, f := F16Bytes(o.depth), F16Bytes(o.proportion), F16Bytes(o.bodyType);
    var g := LE(o.avatarType, 1);
    AtConcat(s, p, a + b + c + d + e + f, g);
    AtConcat(s, p, a + b + c + d + e, f);
    AtConcat(s, p, a + b + c + d, e);
    AtConcat(s, p, a + b + c, d);
    AtConcat(s, p, a + b, c);
    AtConcat(s, p, a, b);
    F16Read(s, p, o.width);
    F16Read(s, p + 2, o.height);
    F16Read(s, p + 4, o.head);
    F16Read(s, p + 6, o.depth);
    F16Read(s, p + 8, o.proportion);
    F16Read(s, p + 10, o.bodyType);
    Read1(s, p + 12, o.avatarType);
  }

  /** The 57-byte header reads back as the decoded outfit, whatever the
      variable-length fields b read after it. */
  lemma {:induction false} HeaderRead(s: seq<Byte>, p: nat, o: Outfit, b: Body)
    requires At(s, p, HeaderBytes(o)) && OutfitValid(o)
    ensures p + HeaderLen <= |s|
    ensures HeaderOf(s, p, b)
      == Decoded(o).(name := Utf8.Decode(b.name), tags := b.tags, assets := b.assets, thumbnail := b.thumbnail)
  {
    AtConcat(s, p, StampBytes(o) + ColorBytes(o), ScaleBytes(o));
    AtConcat(s, p, StampBytes(o), ColorBytes(o));
    StampsRead(s, p, o);
    ColorsRead(s, p + 26, o);
    ScalesRead(s, p + 44, o);
  }

  // ---- Variable-length fields ----

  lemma {:induction false} NameRead(s: seq<Byte>, p: nat, name: string)
    requires At(s, p, NameBytes(name)) && |Utf8.Encode(name)| <= 255
    ensures NameAt(s, p) == Ok((Utf8.Encode(name), |NameBytes(name)|))
  {
    var e := Utf8.Encode(name);
    AtConcat(s, p, LE(|e|, 1), e);
    Read1(s, p, |e|);
    NameStep(s, p, e);
  }

  /** readName after its count byte. */
  lemma {:induction false} NameStep(s: seq<Byte>, p: nat, e: seq<Byte>)
    requires p < |s| && s[p] == |e| && At(s, p + 1, e)
    ensures NameAt(s, p) == Ok((e, 1 + |e|))
  {
    AtSub(s, p + 1, e);
  }

  /** Tag ids that are bytes are stored as themselves. */
  lemma {:induction false} TagIdRunIds(ids: seq<int>)
    requires forall i :: 0 <= i < |ids| ==> U8(ids[i])
    ensures TagIdRun(ids) == ids
    decreases |ids|
  {
    if ids != [] {
      var init := ids[..|ids| - 1];
      TagIdRunIds(init);
      LEOne(ids[|ids| - 1]);
      assert ids == init + [ids[|ids| - 1]];
    }
  }

  lemma {:induction false} TagIdsRead(s: seq<Byte>, p: nat, ids: seq<int>)
    requires At(s, p, TagIdsBytes(ids)) && |ids| <= 255
    requires forall i :: 0 <= i < |ids| ==> U8(ids[i])
    ensures TagIdsAt(s, p) == Ok((ids, 1 + |ids|))
  {
    AtConcat(s, p, LE(|ids|, 1), TagIdRun(ids));
    Read1(s, p, |ids|);
    TagIdRunIds(ids);
    AtSub(s, p + 1, ids);
  }

  /** Id i of a stored run lies 8 * i bytes in. */
  lemma {:induction false} IdRunAt(s: seq<Byte>, p: nat, run: seq<Asset>, i: nat)
    requires At(s, p, IdRun(run)) && i < |run|
    ensures At(s, p + 8 * i, LE(run[i].id, 8))
    decreases |run|
  {
    var init := run[..|run| - 1];
    AtConcat(s, p, IdRun(init), LE(run[|run| - 1].id, 8));
    if i < |init| {
      IdRunAt(s, p, init, i);
    }
  }

  lemma {:induction false} IdsRead(s: seq<Byte>, p: nat, run: seq<Asset>)
    requires forall i :: 0 <= i < |run| ==> run[i].WithoutMeta? && U64Clamped(run[i].id)
    requires At(s, p, IdRun(run))
    ensures IdsAt(s, p, |run|) == Ok(run)
  {
    var r := IdsAt(s, p, |run|).value;
    forall i | 0 <= i < |run| ensures r[i] == run[i] {
      IdRead(s, p, run, i);
      IdsAtIndex(s, p, |run|, i);
    }
    assert r == run;
  }

  /** Id i of a stored run reads back as itself. */
  lemma {:induction false} IdRead(s: seq<Byte>, p: nat, run: seq<Asset>, i: nat)
    requires At(s, p, IdRun(run)) && i < |run| && U64Clamped(run[i].id)
    ensures p + 8 * i + 8 <= |s| && U64Of(s, p + 8 * i) == run[i].id
  {
    IdRunAt(s, p, run, i);
    Read8(s, p + 8 * i, run[i].id);
  }

  lemma {:induction false} BlockRead(s: seq<Byte>, p: nat, a: Asset)
    requires a.WithMeta? && U64Clamped(a.id) && U8(a.order)
    requires At(s, p, BlockBytes(a))
    ensures p + BlockLen <= |s| && BlockOf(s, p) == DecodedAsset(a)
  {
    var b1, b2, b3 := LE(a.id, 8), LE(a.order, 1), F16Bytes(a.puffiness);
    var b4, b5, b6 := V3Bytes(a.position), V3Bytes(a.rotation), V3Bytes(a.scale);
    AtConcat(s, p, b1 + b2 + b3 + b4 + b5, b6);
    AtConcat(s, p, b1 + b2 + b3 + b4, b5);
    AtConcat(s, p, b1 + b2 + b3, b4);
    AtConcat(s, p, b1 + b2, b3);
    AtConcat(s, p, b1, b2);
    Read8(s, p, a.id);
    Read1(s, p + 8, a.order);
    F16Read(s, p + 9, a.puffiness);
    V3Read(s, p + 11, a.position);
    V3Read(s, p + 23, a.rotation);
    V3Read(s, p + 35, a.scale);
  }

  /** Block i of a stored run lies BlockLen * i bytes in. */
  lemma {:induction false} BlockRunAt(s: seq<Byte>, p: nat, run: seq<Asset>, i: nat)
    requires forall j :: 0 <= j < |run| ==> run[j].WithMeta?
    requires At(s, p, BlockRun(run)) && i < |run|
    ensures At(s, p + BlockLen * i, BlockBytes(run[i]))
    decreases |run|
  {
    var init := run[..|run| - 1];
    AtConcat(s, p, BlockRun(init), BlockBytes(run[|run| - 1]));
    if i < |init| {
      BlockRunAt(s, p, init, i);
    }
  }

  lemma {:induction false} BlocksRead(s: seq<Byte>, p: nat, run: seq<Asset>)
    requires forall i :: 0 <= i < |run| ==> run[i].WithMeta? && U64Clamped(run[i].id) && U8(run[i].order)
    requires At(s, p, BlockRun(run))
    ensures BlocksAt(s, p, |run|) == Ok(DecodedAssets(run))
  {
    var r := BlocksAt(s, p, |run|).value;
    forall i | 0 <= i < |run| ensures r[i] == DecodedAsset(run[i]) {
      BlockRunAt(s, p, run, i);
      BlockRead(s, p + BlockLen * i, run[i]);
      BlocksAtIndex(s, p, |run|, i);
    }
    assert r == DecodedAssets(run);
  }

  /** The ids and the blocks of two runs read back. */
  lemma {:induction false} RunsRead(s: seq<Byte>, p: nat, without: seq<Asset>, with: seq<Asset>)
    requires forall i :: 0 <= i < |without| ==> without[i].WithoutMeta? && U64Clamped(without[i].id)
    requires forall i :: 0 <= i < |with| ==> with[i].WithMeta? && U64Clamped(with[i].id) && U8(with[i].order)
    requires At(s, p, IdRun(without)) && At(s, p + 8 * |without|, BlockRun(with))
    ensures RunsAt(s, p, |with|, |without|) == Ok((without + DecodedAssets(with), 2 + 8 * |without| + BlockLen * |with|))
  {
    IdsRead(s, p, without);
    BlocksRead(s, p + 8 * |without|, with);
    RunsStep(s, p, without, DecodedAssets(with), |without|, |with|);
  }

  /** The counts of two runs, and where their ids and blocks lie. */
  lemma {:induction false} RunsSplit(s: seq<Byte>, p: nat, without: seq<Asset>, with: seq<Asset>)
    requires forall i :: 0 <= i < |with| ==> with[i].WithMeta?
    requires |with| <= 255 && |without| <= 255
    requires At(s, p, LE(|with|, 1) + LE(|without|, 1) + IdRun(without) + BlockRun(with))
    ensures p + 1 < |s| && s[p] == |with| && s[p + 1] == |without|
    ensures At(s, p + 2, IdRun(without)) && At(s, p + 2 + 8 * |without|, BlockRun(with))
  {
    var c1, c2 := LE(|with|, 1), LE(|without|, 1);
    AtConcat(s, p, c1 + c2 + IdRun(without), BlockRun(with));
    AtConcat(s, p, c1 + c2, IdRun(without));
    CountsRead(s, p, |with|, |without|);
  }

  /** After the two counts, readAssets reads the runs they announce. */
  lemma {:induction false} CountsStep(s: seq<Byte>, p: nat, withLen: nat, withoutLen: nat)
    requires p + 1 < |s| && s[p] == withLen && s[p + 1] == withoutLen
    ensures AssetsAt(s, p) == RunsAt(s, p + 2, withLen, withoutLen)
  {
  }

  lemma {:induction false} RunsStep(s: seq<Byte>, p: nat, without: seq<Asset>, with: seq<Asset>, m: nat, n: nat)
    requires IdsAt(s, p, m) == Ok(without)
    requires BlocksAt(s, p + 8 * m, n) == Ok(with)
    ensures RunsAt(s, p, n, m) == Ok((without + with, 2 + 8 * m + BlockLen * n))
  {
  }

  lemma {:induction false} CountsRead(s: seq<Byte>, p: nat, a: nat, b: nat)
    requires a <= 255 && b <= 255 && At(s, p, LE(a, 1) + LE(b, 1))
    ensures p + 1 < |s| && s[p] == a && s[p + 1] == b
  {
    AtConcat(s, p, LE(a, 1), LE(b, 1));
    Read1(s, p, a);
    Read1(s, p + 1, b);
  }

  lemma {:induction false} AssetsRead(s: seq<Byte>, p: nat, assets: seq<Asset>)
    requires forall i :: 0 <= i < |assets| ==> AssetValid(assets[i])
    requires |WithMetaOf(assets)| <= 255 && |WithoutMetaOf(assets)| <= 255
    requires At(s, p, AssetsBytes(assets))
    ensures AssetsAt(s, p) == Ok((WithoutMetaOf(assets) + DecodedAssets(WithMetaOf(assets)), |AssetsBytes(assets)|))
  {
    var with, without := WithMetaOf(assets), WithoutMetaOf(assets);
    RunsValid(assets);
    RunsSplit(s, p, without, with);
    RunsRead(s, p + 2, without, with);
    CountsStep(s, p, |with|, |without|);
  }

  /** Every asset of either run is an asset of the outfit, so it passed the
      asset schema. */
  lemma {:induction false} RunsValid(assets: seq<Asset>)
    requires forall i :: 0 <= i < |assets| ==> AssetValid(assets[i])
    ensures forall i :: 0 <= i < |WithMetaOf(assets)| ==>
      U64Clamped(WithMetaOf(assets)[i].id) && U8(WithMetaOf(assets)[i].order)
    ensures forall i :: 0 <= i < |WithoutMetaOf(assets)| ==> U64Clamped(WithoutMetaOf(assets)[i].id)
  {
    Partition(assets);
    forall i | 0 <= i < |WithMetaOf(assets)|
      ensures U64Clamped(WithMetaOf(assets)[i].id) && U8(WithMetaOf(assets)[i].order)
    {
      assert WithMetaOf(assets)[i] in multiset(assets);
    }
    forall i | 0 <= i < |WithoutMetaOf(assets)|
      ensures U64Clamped(WithoutMetaOf(assets)[i].id)
    {
      assert WithoutMetaOf(assets)[i] in multiset(assets);
    }
  }

  lemma {:induction false} ThumbnailRead(s: seq<Byte>, p: nat, t: seq<Byte>)
    requires At(s, p, ThumbnailBytes(t)) && |t| < 0x1_0000_0000
    ensures ThumbnailAt(s, p) == Ok(t)
  {
    AtConcat(s, p, LE(|t|, 4), t);
    Read4(s, p, |t|);
    AtSub(s, p + 4, t);
  }

  // ---- Records ----

  /** Where the five parts of a stored record lie. */
  lemma {:induction false} OutfitParts(s: seq<Byte>, p: nat, o: Outfit)
    requires At(s, p, OutfitBytes(o))
    ensures var q1 := p + HeaderLen;
      var q2 := q1 + |NameBytes(o.name)|;
      var q3 := q2 + |TagIdsBytes(o.tags)|;
      var q4 := q3 + |AssetsBytes(o.assets)|;
      At(s, p, HeaderBytes(o)) && At(s, q1, NameBytes(o.name)) && At(s, q2, TagIdsBytes(o.tags))
      && At(s, q3, AssetsBytes(o.assets)) && At(s, q4, ThumbnailBytes(o.thumbnail))
  {
    var h, n, t, a, b := HeaderBytes(o), NameBytes(o.name), TagIdsBytes(o.tags), AssetsBytes(o.assets), ThumbnailBytes(o.thumbnail);
    AtConcat(s, p, h + n + t + a, b);
    AtConcat(s, p, h + n + t, a);
    AtConcat(s, p, h + n, t);
    AtConcat(s, p, h, n);
  }

  /** The variable-length fields of a record read back one after another. */
  lemma {:induction false} BodyRead(s: seq<Byte>, q1: nat, q2: nat, q3: nat, q4: nat, b: Body)
    requires NameAt(s, q1) == Ok((b.name, q2 - q1)) && q1 <= q2
    requires TagIdsAt(s, q2) == Ok((b.tags, q3 - q2)) && q2 <= q3
    requires AssetsAt(s, q3) == Ok((b.assets, q4 - q3)) && q3 <= q4
    requires ThumbnailAt(s, q4) == Ok(b.thumbnail)
    ensures BodyAt(s, q1) == Ok(b)
  {
    AfterNameRead(s, q2, q3, q4, b);
  }

  lemma {:induction false} AfterNameRead(s: seq<Byte>, q2: nat, q3: nat, q4: nat, b: Body)
    requires TagIdsAt(s, q2) == Ok((b.tags, q3 - q2)) && q2 <= q3
    requires AssetsAt(s, q3) == Ok((b.assets, q4 - q3)) && q3 <= q4
    requires ThumbnailAt(s, q4) == Ok(b.thumbnail)
    ensures AfterNameAt(s, q2) == Ok(b.(name := []))
  {
    AfterTagsRead(s, q3, q4, b);
  }

  lemma {:induction false} AfterTagsRead(s: seq<Byte>, q3: nat, q4: nat, b: Body)
    requires AssetsAt(s, q3) == Ok((b.assets, q4 - q3)) && q3 <= q4
    requires ThumbnailAt(s, q4) == Ok(b.thumbnail)
    ensures AfterTagsAt(s, q3) == Ok(b.(name := [], tags := []))
  {
  }

  /** A stored record reads back as the decoded outfit. */
  lemma {:induction false} OutfitRead(s: seq<Byte>, p: nat, o: Outfit)
    requires Storable(o) && At(s, p, OutfitBytes(o))
    ensures OutfitAt(s, p) == Ok(Decoded(o))
  {
    var b := StoredBody(o);
    RecordBodyRead(s, p, o);
    HeaderRead(s, p, o, b);
    Utf8.DecodeEncode(o.name);
    assert HeaderOf(s, p, b) == Decoded(o);
  }

  /** The variable-length fields of a record as they read back: the name
      still as its UTF-8 bytes. */
  function StoredBody(o: Outfit): Body
  {
    Body(Utf8.Encode(o.name), o.tags, Decoded(o).assets, o.thumbnail)
  }

  /** The variable-length fields of a stored record read back, after the
      header. */
  lemma {:induction false} RecordBodyRead(s: seq<Byte>, p: nat, o: Outfit)
    requires Storable(o) && At(s, p, OutfitBytes(o))
    ensures At(s, p, HeaderBytes(o)) && BodyAt(s, p + HeaderLen) == Ok(StoredBody(o))
  {
    var q1 := p + HeaderLen;
    var q2 := q1 + |NameBytes(o.name)|;
    var q3 := q2 + |TagIdsBytes(o.tags)|;
    var q4 := q3 + |AssetsBytes(o.assets)|;
    OutfitParts(s, p, o);
    NameRead(s, q1, o.name);
    TagIdsRead(s, q2, o.tags);
    AssetsRead(s, q3, o.assets);
    ThumbnailRead(s, q4, o.thumbnail);
    BodyRead(s, q1, q2, q3, q4, StoredBody(o));
  }

  /** readOutfitLen on a stored record gives the record's length. */
  lemma {:induction false} OutfitLenRead(s: seq<Byte>, p: nat, o: Outfit)
    requires Storable(o) && At(s, p, OutfitBytes(o))
    ensures OutfitLenAt(s, p) == Ok(|OutfitBytes(o)|)
  {
    var q1 := p + HeaderLen;
    var q2 := q1 + |NameBytes(o.name)|;
    var q3 := q2 + |TagIdsBytes(o.tags)|;
    var q4 := q3 + |AssetsBytes(o.assets)|;
    OutfitParts(s, p, o);
    PartCounts(s, q1, q2, q3, q4, o);
    OutfitLenCounts(s, p, q1, q2, q3, q4, |Utf8.Encode(o.name)|, |o.tags|,
      |WithMetaOf(o.assets)|, |WithoutMetaOf(o.assets)|, |o.thumbnail|);
  }

  /** The counts stored in the variable-length part of a record. */
  lemma {:induction false} PartCounts(s: seq<Byte>, q1: nat, q2: nat, q3: nat, q4: nat, o: Outfit)
    requires Storable(o)
    requires At(s, q1, NameBytes(o.name)) && q2 == q1 + |NameBytes(o.name)|
    requires At(s, q2, TagIdsBytes(o.tags)) && q3 == q2 + |TagIdsBytes(o.tags)|
    requires At(s, q3, AssetsBytes(o.assets)) && q4 == q3 + |AssetsBytes(o.assets)|
    requires At(s, q4, ThumbnailBytes(o.thumbnail))
    ensures s[q1] == |Utf8.Encode(o.name)| && s[q2] == |o.tags|
    ensures s[q3] == |WithMetaOf(o.assets)| && s[q3 + 1] == |WithoutMetaOf(o.assets)|
    ensures q4 + 4 + |o.thumbnail| <= |s| && DigitsAt(s, q4, q4 + 4) == |o.thumbnail|
  {
    var e, with, without := Utf8.Encode(o.name), WithMetaOf(o.assets), WithoutMetaOf(o.assets);
    AtConcat(s, q1, LE(|e|, 1), e);
    Read1(s, q1, |e|);
    AtConcat(s, q2, LE(|o.tags|, 1), TagIdRun(o.tags));
    Read1(s, q2, |o.tags|);
    AtConcat(s, q3, LE(|with|, 1) + LE(|without|, 1) + IdRun(without), BlockRun(with));
    AtConcat(s, q3, LE(|with|, 1) + LE(|without|, 1), IdRun(without));
    CountsRead(s, q3, |with|, |without|);
    AtConcat(s, q4, LE(|o.thumbnail|, 4), o.thumbnail);
    Read4(s, q4, |o.thumbnail|);
  }

  /** readOutfitLen from the counts it reads, when the whole record lies
      inside the buffer. */
  lemma {:induction false} OutfitLenCounts(s: seq<Byte>, p: nat, q1: nat, q2: nat, q3: nat, q4: nat,
                                           n: nat, t: nat, w: nat, wo: nat, th: nat)
    requires q1 == p + HeaderLen && q2 == q1 + 1 + n && q3 == q2 + 1 + t
    requires q4 == q3 + 2 + BlockLen * w + 8 * wo && q4 + 4 + th <= |s|
    requires s[q1] == n && s[q2] == t && s[q3] == w && s[q3 + 1] == wo && DigitsAt(s, q4, q4 + 4) == th
    ensures OutfitLenAt(s, p) == Ok(HeaderLen + (1 + n) + (1 + t) + (2 + BlockLen * w + 8 * wo) + (4 + th))
  {
  }

  // ---- Files ----

  /** The record run, split after its first record. */
  lemma {:induction false} OutfitRunFront(os: seq<Outfit>)
    requires os != []
    ensures OutfitRun(os) == OutfitBytes(os[0]) + OutfitRun(os[1..])
  {
    JoinFront(Records(os));
    assert Records(os)[1..] == Records(os[1..]);
  }

  /** The bytes r read back as d wherever they are stored: lenAt gives
      their length and at gives d. */
  ghost predicate ReadsBack<T>(lenAt: (seq<Byte>, nat) -> Result<nat>, at: (seq<Byte>, nat) -> Result<T>,
                               r: seq<Byte>, d: T)
  {
    |r| > 0 &&
    forall t: seq<Byte>, q: nat {:trigger At(t, q, r)} :: At(t, q, r) ==> lenAt(t, q) == Ok(|r|) && at(t, q) == Ok(d)
  }

  /** A length reader that gives 0 at the end of the buffer. */
  ghost predicate StopsAtEnd(lenAt: (seq<Byte>, nat) -> Result<nat>)
  {
    forall t: seq<Byte> :: lenAt(t, |t|) == Ok(0)
  }

  /** Records rs[i..] that each read back, stored back to back from q up to
      the end of the buffer: the loop reads them all and stops at the end. */
  lemma {:induction false} LoopReads<T>(s: seq<Byte>, rs: seq<seq<Byte>>, ds: seq<T>, i: nat, q: nat,
                                        lenAt: (seq<Byte>, nat) -> Result<nat>, at: (seq<Byte>, nat) -> Result<T>)
    requires Advances(lenAt) && StopsAtEnd(lenAt)
    requires |rs| == |ds| && i <= |rs|
    requires forall k :: 0 <= k < |rs| ==> ReadsBack(lenAt, at, rs[k], ds[k])
    requires At(s, q, Join(rs[i..])) && q + |Join(rs[i..])| == |s|
    ensures ReadLoop(s, q, lenAt, at) == Ok(ds[i..])
    decreases |rs| - i
  {
    if i == |rs| {
      assert rs[i..] == [] && ds[i..] == [];
      LoopEnd(s, q, lenAt, at);
    } else {
      RunSplit(s, q, rs, i);
      LoopReads(s, rs, ds, i + 1, q + |rs[i]|, lenAt, at);
      assert ReadsBack(lenAt, at, rs[i], ds[i]);
      SliceCons(ds, i);
      LoopStep(s, q, |rs[i]|, ds[i], ds[i + 1..], lenAt, at);
    }
  }

  /** The loop stops where the length reader gives 0. */
  lemma {:induction false} LoopEnd<T>(s: seq<Byte>, q: nat, lenAt: (seq<Byte>, nat) -> Result<nat>, at: (seq<Byte>, nat) -> Result<T>)
    requires Advances(lenAt) && StopsAtEnd(lenAt) && q == |s|
    ensures ReadLoop(s, q, lenAt, at) == Ok([])
  {
    assert lenAt(s, |s|) == Ok(0);
  }

  /** One turn of the loop: a positive length, a record, then the rest. */
  lemma {:induction false} LoopStep<T>(s: seq<Byte>, q: nat, len: nat, d: T, rest: seq<T>,
                                       lenAt: (seq<Byte>, nat) -> Result<nat>, at: (seq<Byte>, nat) -> Result<T>)
    requires Advances(lenAt) && lenAt(s, q) == Ok(len) && len > 0 && at(s, q) == Ok(d)
    requires ReadLoop(s, q + len, lenAt, at) == Ok(rest)
    ensures ReadLoop(s, q, lenAt, at) == Ok([d] + rest)
  {
  }

  /** The records from i on, split after record i. */
  lemma {:induction false} RunSplit(s: seq<Byte>, q: nat, rs: seq<seq<Byte>>, i: nat)
    requires i < |rs| && At(s, q, Join(rs[i..]))
    ensures At(s, q, rs[i]) && At(s, q + |rs[i]|, Join(rs[i + 1..]))
    ensures |Join(rs[i..])| == |rs[i]| + |Join(rs[i + 1..])|
  {
    JoinFront(rs[i..]);
    assert rs[i..][1..] == rs[i + 1..];
    AtConcat(s, q, rs[i], Join(rs[i + 1..]));
  }

  lemma {:induction false} SliceCons<T>(ds: seq<T>, i: nat)
    requires i < |ds|
    ensures ds[i..] == [ds[i]] + ds[i + 1..]
  {
    assert ds[i..] == [ds[i]] + ds[i + 1..];
  }

  /** A storable record reads back as its decoded form. */
  lemma {:induction false} RecordReadsBack(o: Outfit)
    requires Storable(o)
    ensures ReadsBack(OutfitLenAt, OutfitAt, OutfitBytes(o), Decoded(o))
  {
    forall t: seq<Byte>, q: nat | At(t, q, OutfitBytes(o))
      ensures OutfitLenAt(t, q) == Ok(|OutfitBytes(o)|) && OutfitAt(t, q) == Ok(Decoded(o))
    {
      OutfitLenRead(t, q, o);
      OutfitRead(t, q, o);
    }
  }

  /** Records that each read back, stored back to back from q up to the
      end of the buffer: both passes read them all. */
  lemma {:induction false} StagedReads<T>(s: seq<Byte>, rs: seq<seq<Byte>>, ds: seq<T>, q: nat,
                                          lenAt: (seq<Byte>, nat) -> Result<nat>, at: (seq<Byte>, nat) -> Result<T>)
    requires Advances(lenAt) && StopsAtEnd(lenAt)
    requires |rs| == |ds| && forall k :: 0 <= k < |rs| ==> ReadsBack(lenAt, at, rs[k], ds[k])
    requires At(s, q, Join(rs)) && q + |Join(rs)| == |s|
    ensures Staged(s, q, lenAt, at) == Ok(ds)
  {
    assert rs[0..] == rs && ds[0..] == ds;
    LoopReads(s, rs, ds, 0, q, lenAt, at);
    LoopStaged(s, q, lenAt, at);
  }

  /** readOutfitLen advances and gives 0 at the end. */
  lemma {:induction false} LengthReader()
    ensures Advances(OutfitLenAt) && StopsAtEnd(OutfitLenAt)
  {
  }

  /** Every storable record of a list reads back. */
  lemma {:induction false} RecordsReadBack(os: seq<Outfit>)
    requires forall i :: 0 <= i < |os| ==> Storable(os[i])
    ensures forall k :: 0 <= k < |os| ==> ReadsBack(OutfitLenAt, OutfitAt, Records(os)[k], DecodedRun(os)[k])
  {
    forall k | 0 <= k < |os|
      ensures ReadsBack(OutfitLenAt, OutfitAt, Records(os)[k], DecodedRun(os)[k])
    {
      RecordReadsBack(os[k]);
    }
  }

  /** Records stored back to back up to the end of the file read back, and
      the loop stops at the end. */
  lemma {:induction false} OutfitsRead(s: seq<Byte>, p: nat, os: seq<Outfit>)
    requires forall i :: 0 <= i < |os| ==> Storable(os[i])
    requires At(s, p, OutfitRun(os)) && p + |OutfitRun(os)| == |s|
    ensures OutfitsFrom(s, p) == Ok(DecodedRun(os))
  {
    RecordsReadBack(os);
    LengthReader();
    StagedReads(s, Records(os), DecodedRun(os), p, OutfitLenAt, OutfitAt);
  }

  /** The tag list, split after its first tag. */
  lemma {:induction false} TagListFront(tags: seq<string>)
    requires tags != []
    ensures TagListBytes(tags) == NameBytes(tags[0]) + TagListBytes(tags[1..])
  {
    JoinFront(TagEntries(tags));
    assert TagEntries(tags)[1..] == TagEntries(tags[1..]);
  }

  lemma {:induction false} TagEntriesRead(s: seq<Byte>, p: nat, tags: seq<string>, k: nat)
    requires k == |tags| && forall i :: 0 <= i < |tags| ==> |Utf8.Encode(tags[i])| <= 255
    requires At(s, p, TagListBytes(tags))
    ensures TagEntriesAt(s, p, k) == Ok((EncodedTags(tags), |TagListBytes(tags)|))
    decreases k
  {
    if k != 0 {
      var t, rest := tags[0], tags[1..];
      var first := (Utf8.Encode(t), |NameBytes(t)|);
      var after := (EncodedTags(rest), |TagListBytes(rest)|);
      TagListSplit(s, p, tags);
      NameRead(s, p, t);
      TagEntriesRead(s, p + first.1, rest, k - 1);
      TagListParts(tags);
      TagEntriesStep(s, p, k, first, after, EncodedTags(tags), |TagListBytes(tags)|);
    }
  }

  /** A stored tag list starts with its first entry. */
  lemma {:induction false} TagListSplit(s: seq<Byte>, p: nat, tags: seq<string>)
    requires tags != [] && At(s, p, TagListBytes(tags))
    ensures At(s, p, NameBytes(tags[0])) && At(s, p + |NameBytes(tags[0])|, TagListBytes(tags[1..]))
  {
    TagListFront(tags);
    AtConcat(s, p, NameBytes(tags[0]), TagListBytes(tags[1..]));
  }

  /** The UTF-8 bytes of each tag. */
  function EncodedTags(tags: seq<string>): (r: seq<seq<Byte>>)
    ensures |r| == |tags| && forall i {:trigger r[i]} :: 0 <= i < |tags| ==> r[i] == Utf8.Encode(tags[i])
  {
    seq(|tags|, i requires 0 <= i < |tags| => Utf8.Encode(tags[i]))
  }

  /** The encoded tags and the byte count of a list, split after its first tag. */
  lemma {:induction false} TagListParts(tags: seq<string>)
    requires tags != []
    ensures EncodedTags(tags) == [Utf8.Encode(tags[0])] + EncodedTags(tags[1..])
    ensures |TagListBytes(tags)| == |NameBytes(tags[0])| + |TagListBytes(tags[1..])|
  {
    TagListFront(tags);
    assert EncodedTags(tags) == [Utf8.Encode(tags[0])] + EncodedTags(tags[1..]);
  }

  /** Decoding the encoded tags drops a leading U+FEFF from each. */
  lemma {:induction false} DecodeEncodedTags(tags: seq<string>)
    ensures DecodeAll(EncodedTags(tags)) == StoredTags(tags)
  {
    forall i | 0 <= i < |tags| ensures DecodeAll(EncodedTags(tags))[i] == StoredTags(tags)[i] {
      Utf8.DecodeEncode(tags[i]);
    }
  }

  /** One tag entry, then the k - 1 after it. */
  lemma {:induction false} TagEntriesStep(s: seq<Byte>, p: nat, k: nat, first: (seq<Byte>, nat), rest: (seq<seq<Byte>>, nat),
                                          all: seq<seq<Byte>>, total: nat)
    requires k > 0
    requires NameAt(s, p) == Ok(first)
    requires TagEntriesAt(s, p + first.1, k - 1) == Ok(rest)
    requires all == [first.0] + rest.0
    requires total == first.1 + rest.1
    ensures TagEntriesAt(s, p, k) == Ok((all, total))
  {
  }

  lemma {:induction false} TagsRead(s: seq<Byte>, p: nat, tags: seq<string>)
    requires TagsFit(tags) && At(s, p, TagsBytes(tags))
    ensures TagsAt(s, p) == Ok((StoredTags(tags), |TagsBytes(tags)|))
  {
    AtConcat(s, p, LE(|tags|, 1), TagListBytes(tags));
    Read1(s, p, |tags|);
    TagEntriesRead(s, p + 1, tags, |tags|);
    DecodeEncodedTags(tags);
  }

  /** The round trip of the v0 codec: safeDecode(encode(w)) gives back the
      wardrobe, version 0, with every half-precision field quantized, the
      assets regrouped and any leading U+FEFF dropped from names and tags. */
  lemma {:induction false} WardrobeRoundTrip(tags: seq<string>, os: seq<Outfit>)
    requires TagsFit(tags) && forall i :: 0 <= i < |os| ==> Storable(os[i])
    ensures SafeDecodeAt(WardrobeBytes(tags, os)) == Some(Wardrobe(0, DecodedRun(os), StoredTags(tags)))
  {
    WardrobeFacts(tags, os);
    FileReads(WardrobeBytes(tags, os), TagsBytes(tags), StoredTags(tags), Records(os), DecodedRun(os));
  }

  /** An encoded wardrobe: the tag table at 2 and the records after it,
      each of which reads back. */
  lemma {:induction false} WardrobeFacts(tags: seq<string>, os: seq<Outfit>)
    requires TagsFit(tags) && forall i :: 0 <= i < |os| ==> Storable(os[i])
    ensures 3 <= |WardrobeBytes(tags, os)|
    ensures At(WardrobeBytes(tags, os), 2, TagsBytes(tags)) && TableReads(TagsBytes(tags), StoredTags(tags))
    ensures |Records(os)| == |DecodedRun(os)|
    ensures forall k :: 0 <= k < |Records(os)| ==> ReadsBack(OutfitLenAt, OutfitAt, Records(os)[k], DecodedRun(os)[k])
    ensures At(WardrobeBytes(tags, os), 2 + |TagsBytes(tags)|, Join(Records(os)))
    ensures 2 + |TagsBytes(tags)| + |Join(Records(os))| == |WardrobeBytes(tags, os)|
  {
    WardrobeParts(tags, os);
    TableReadsBack(tags);
    RecordsReadBack(os);
  }

  /** Where the parts of an encoded wardrobe lie: the tag table at 2, then
      the records up to the end. */
  lemma {:induction false} WardrobeParts(tags: seq<string>, os: seq<Outfit>)
    ensures 3 <= |WardrobeBytes(tags, os)|
    ensures At(WardrobeBytes(tags, os), 2, TagsBytes(tags))
    ensures At(WardrobeBytes(tags, os), 2 + |TagsBytes(tags)|, Join(Records(os)))
    ensures 2 + |TagsBytes(tags)| + |Join(Records(os))| == |WardrobeBytes(tags, os)|
  {
    var s := WardrobeBytes(tags, os);
    var t := TagsBytes(tags);
    AtWhole(s);
    AtConcat(s, 0, LE(0, 2) + t, OutfitRun(os));
    AtConcat(s, 0, LE(0, 2), t);
  }

  /** The bytes tb read back as the tag table T wherever they are stored. */
  ghost predicate TableReads(tb: seq<Byte>, T: seq<string>)
  {
    forall t: seq<Byte>, q: nat {:trigger At(t, q, tb)} :: At(t, q, tb) ==> TagsAt(t, q) == Ok((T, |tb|))
  }

  /** An encoded tag table reads back. */
  lemma {:induction false} TableReadsBack(tags: seq<string>)
    requires TagsFit(tags)
    ensures TableReads(TagsBytes(tags), StoredTags(tags))
  {
    forall t: seq<Byte>, q: nat | At(t, q, TagsBytes(tags))
      ensures TagsAt(t, q) == Ok((StoredTags(tags), |TagsBytes(tags)|))
    {
      TagsRead(t, q, tags);
    }
  }

  /** A buffer holding a tag table at 2 and then records up to its end
      decodes to them. */
  lemma {:induction false} FileReads(s: seq<Byte>, tb: seq<Byte>, T: seq<string>, rs: seq<seq<Byte>>, ds: seq<Outfit>)
    requires 3 <= |s| && At(s, 2, tb) && TableReads(tb, T)
    requires |rs| == |ds| && forall k :: 0 <= k < |rs| ==> ReadsBack(OutfitLenAt, OutfitAt, rs[k], ds[k])
    requires At(s, 2 + |tb|, Join(rs)) && 2 + |tb| + |Join(rs)| == |s|
    ensures SafeDecodeAt(s) == Some(Wardrobe(0, ds, T))
  {
    assert TagsAt(s, 2) == Ok((T, |tb|));
    LengthReader();
    StagedReads(s, rs, ds, 2 + |tb|, OutfitLenAt, OutfitAt);
    DecodeParts(s, T, |tb|, ds);
  }

  /** decode from its two parts: the tag table at 2, then the records. */
  lemma {:induction false} DecodeParts(s: seq<Byte>, tags: seq<string>, n: nat, os: seq<Outfit>)
    requires 3 <= |s|
    requires TagsAt(s, 2) == Ok((tags, n))
    requires OutfitsFrom(s, 2 + n) == Ok(os)
    ensures SafeDecodeAt(s) == Some(Wardrobe(0, os, tags))
  {
  }
}
