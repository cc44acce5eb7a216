// Inputs the v0 schema accepts but the v0 layout cannot hold: both
// counts below are written into a single byte, which keeps only the count
// modulo 256. Schema.OutfitFits is the schema that excludes them, and
// RoundTrip.WardrobeRoundTrip proves that everything it admits reads back.

module Findings {
  import opened Results
  import opened Bytes
  import Utf8
  import opened Schema
  import opened Layout

  /** n copies of c. */
  function Repeat<T>(n: nat, c: T): (r: seq<T>)
    ensures |r| == n && forall i :: 0 <= i < n ==> r[i] == c
  {
    seq(n, _ => c)
  }

  /** A name of 128 'é' passes the schema's 255-unit limit, but its 256
      UTF-8 bytes store a length byte of 0, so the name decodes as empty
      and its bytes are taken for the fields after it. */
  lemma NameLengthWraps()
    ensures var name := Repeat(128, '\U{E9}');
      && Utf8.Utf16Length(name) == 128
      && |Utf8.Encode(name)| == 256
      && NameBytes(name)[0] == 0
      && NameAt(NameBytes(name), 0) == Ok(([], 1))
  {
    TwoByteName(Repeat(128, '\U{E9}'));
  }

  lemma {:induction false} TwoByteName(name: string)
    requires |name| == 128 && forall i :: 0 <= i < |name| ==> 0x80 <= name[i] as int < 0x800
    ensures Utf8.Utf16Length(name) == 128 && |Utf8.Encode(name)| == 256
    ensures NameBytes(name)[0] == 0 && NameAt(NameBytes(name), 0) == Ok(([], 1))
  {
    Utf8.TwoByteLengths(name);
    var e := Utf8.Encode(name);
    assert NameBytes(name) == LE(256, 1) + e;
    assert NameBytes(name)[0] == LE(256, 1)[0] == 0;
    assert Sub(NameBytes(name), 1, 0) == [];
  }

  /** Assets none of which carry metadata are all in the run without. */
  lemma {:induction false} AllWithoutMeta(assets: seq<Asset>)
    requires forall i :: 0 <= i < |assets| ==> assets[i].WithoutMeta?
    ensures WithoutMetaOf(assets) == assets && WithMetaOf(assets) == []
    decreases |assets|
  {
    if assets != [] {
      var init := assets[..|assets| - 1];
      AllWithoutMeta(init);
      assert assets == init + [assets[|assets| - 1]];
    }
  }

  /** The schema puts no bound on the number of assets: 256 valid assets
      without metadata store a count of 0 for their run. */
  lemma AssetCountWraps()
    ensures var assets := Repeat(256, WithoutMeta(0));
      && (forall i :: 0 <= i < |assets| ==> AssetValid(assets[i]))
      && |WithoutMetaOf(assets)| == 256
      && AssetsBytes(assets)[1] == 0
  {
    var assets := Repeat(256, WithoutMeta(0));
    AllWithoutMeta(assets);
    assert AssetsBytes(assets)[1] == LE(256, 1)[0] == 0;
  }
}
