// Wardrobe import and export: choosing the format, checking the version
// before decoding, merging an imported tag table into the registry and
// prepending the imported outfits to the list.

module Itself {
  import opened Results
  import opened Bytes
  import opened Schema
  import opened Layout
  import RoundTrip
  import Codec
  import Entry
  import opened Outfits

  datatype DesBinaryError = DecoderFail | UnsupportedVersion

  datatype ImportError = UnsupportedFormat | BinaryDeserializationFail(error: DesBinaryError)

  /** What an import can throw instead of returning: the RangeError of a
      read past the end, or the string thrown for JSON files. */
  datatype Thrown = RangeErrorThrown | StringThrown(value: string)

  /** How a call ends: a returned value or a thrown exception. */
  datatype Completion<T> = Normal(value: T) | Threw(exception: Thrown)

  datatype Format = Json | Binary

  /** An exported file. The JSON text is not modelled: a JSON blob only
      records the wardrobe it serializes. */
  datatype Blob = JsonBlob(wardrobe: Wardrobe) | BinaryBlob(bytes: seq<Byte>, mime: string)

  const VanitaMime := "application/vanita"
  const VanitaExtension := ".vanita"
  const JsonExtension := ".json"
  const JsonNotSupported := "WHAT IN THE WORLD!!!!!"

  // ---- Export ----

  /** The v0 bytes of a wardrobe that passes the schema, none otherwise. */
  method ExportBinary(wardrobe: Wardrobe) returns (r: Option<Blob>)
    ensures r.Some? <==> TagsValid(wardrobe.tags) && forall i :: 0 <= i < |wardrobe.outfits| ==> OutfitValid(wardrobe.outfits[i])
    ensures r.Some? ==> r.value == BinaryBlob(WardrobeBytes(wardrobe.tags, wardrobe.outfits), VanitaMime)
  {
    var data := Codec.SafeEncode(wardrobe.tags, wardrobe.outfits);
    if data.Some? {
      return Some(BinaryBlob(data.value.bytes[..], VanitaMime));
    }
    return None;
  }

  method ExportWardrobe(format: Format, wardrobe: Wardrobe) returns (r: Option<Blob>)
    ensures format == Json ==> r == Some(JsonBlob(wardrobe))
    ensures format == Binary ==> (r.Some? <==> TagsValid(wardrobe.tags) && forall i :: 0 <= i < |wardrobe.outfits| ==> OutfitValid(wardrobe.outfits[i]))
    ensures format == Binary && r.Some? ==> r.value == BinaryBlob(WardrobeBytes(wardrobe.tags, wardrobe.outfits), VanitaMime)
  {
    if format == Json {
      return Some(JsonBlob(wardrobe));
    }
    r := ExportBinary(wardrobe);
  }

  // ---- Binary deserialization ----

  /** desBinary on a file's bytes: the version gate, then the v0 decoder.
      A file of fewer than two bytes throws while the version is read. */
  function Deserialize(s: seq<Byte>): (r: Result<Outcome<Wardrobe, DesBinaryError>>)
    ensures r.RangeError? <==> |s| < 2
    ensures r.Ok? && r.value.Success? <==> |s| >= 2 && s[0] == 0 && s[1] == 0 && SafeDecodeAt(s).Some?
    ensures r.Ok? && r.value.Success? ==> r.value.value == SafeDecodeAt(s).value
    ensures r.Ok? && r.value.Failure? ==> (r.value.error == UnsupportedVersion <==> s[0] != 0 || s[1] != 0)
  {
    if |s| < 2 then RangeError
    else if s[0] as int + 0x100 * s[1] as int == 0 then
      match SafeDecodeAt(s)
      case Some(w) => Ok(Success(w))
      case None => Ok(Failure(DecoderFail))
    else Ok(Failure(UnsupportedVersion))
  }

  method DesBinary(data: array<Byte>) returns (r: Result<Outcome<Wardrobe, DesBinaryError>>)
    ensures r == Deserialize(data[..])
  {
    var version := Entry.DecodeVersion(data);
    if version.RangeError? {
      return RangeError;
    }
    if version.value == 0 {
      var decoded := Codec.SafeDecode(data);
      if decoded.Some? {
        return Ok(Success(decoded.value));
      }
      return Ok(Failure(DecoderFail));
    }
    return Ok(Failure(UnsupportedVersion));
  }

  /** An exported wardrobe that the layout can hold imports back: the
      outfits as the decoder rebuilds them and the tags without a leading
      byte-order mark. */
  lemma {:induction false} DeserializeExport(tags: seq<string>, os: seq<Outfit>)
    requires TagsFit(tags) && forall i :: 0 <= i < |os| ==> RoundTrip.Storable(os[i])
    ensures Deserialize(WardrobeBytes(tags, os))
         == Ok(Success(Wardrobe(0, RoundTrip.DecodedRun(os), RoundTrip.StoredTags(tags))))
  {
    RoundTrip.WardrobeRoundTrip(tags, os);
  }

  // ---- Import ----

  predicate EndsWith(s: string, suffix: string)
  {
    |suffix| <= |s| && s[|s| - |suffix|..] == suffix
  }

  /** The registry after the imported tag names are looked up in turn,
      each missing one appended unchecked, and the registry index each
      name is mapped to. MergeTagsSound states what it guarantees. */
  function MergeTags(entries: seq<QueryTag>, names: seq<string>): (r: (seq<QueryTag>, seq<int>))
    ensures |r.1| == |names|
    decreases |names|
  {
    if names == [] then (entries, [])
    else MergeOne(MergeTags(entries, names[..|names| - 1]), names[|names| - 1])
  }

  /** One turn of the tag loop: look the name up, push it when missing. */
  function MergeOne(prior: (seq<QueryTag>, seq<int>), name: string): (r: (seq<QueryTag>, seq<int>))
    ensures |prior.0| <= |r.0| <= |prior.0| + 1 && r.0[..|prior.0|] == prior.0
    ensures |r.1| == |prior.1| + 1 && r.1[..|prior.1|] == prior.1
    ensures 0 <= r.1[|prior.1|] < |r.0| && r.0[r.1[|prior.1|]].name == name
    ensures |r.0| == |prior.0| + 1 ==> r.0[|prior.0|] == QueryTag(name, false)
    ensures FindLabel(prior.0, name) != -1 ==> r.0 == prior.0 && r.1[|prior.1|] == FindLabel(prior.0, name)
  {
    var found := FindLabel(prior.0, name);
    if found == -1 then (prior.0 + [QueryTag(name, false)], prior.1 + [|prior.0|])
    else (prior.0, prior.1 + [found])
  }

  /** The merged registry keeps the old entries and adds only unchecked
      imported names; every imported name is mapped to an entry with that
      name, and a name already registered to its first entry. */
  lemma {:induction false} MergeTagsSound(entries: seq<QueryTag>, names: seq<string>)
    ensures var r := MergeTags(entries, names);
      && |entries| <= |r.0| && r.0[..|entries|] == entries
      && (forall i :: 0 <= i < |names| ==> 0 <= r.1[i] < |r.0| && r.0[r.1[i]].name == names[i])
      && (forall k :: |entries| <= k < |r.0| ==> !r.0[k].checked && r.0[k].name in names)
      && (forall i :: 0 <= i < |names| && FindLabel(entries, names[i]) != -1 ==> r.1[i] == FindLabel(entries, names[i]))
  {
    MergeKeeps(entries, names);
    MergeMaps(entries, names);
    MergeAdds(entries, names);
    MergeFinds(entries, names);
  }

  lemma {:induction false} MergeKeeps(entries: seq<QueryTag>, names: seq<string>)
    ensures |entries| <= |MergeTags(entries, names).0| && MergeTags(entries, names).0[..|entries|] == entries
    decreases |names|
  {
    if names != [] {
      var prior := MergeTags(entries, names[..|names| - 1]);
      var r := MergeOne(prior, names[|names| - 1]);
      MergeKeeps(entries, names[..|names| - 1]);
      assert r.0[..|entries|] == r.0[..|prior.0|][..|entries|];
    }
  }

  lemma {:induction false} MergeMaps(entries: seq<QueryTag>, names: seq<string>)
    ensures var r := MergeTags(entries, names);
      forall i :: 0 <= i < |names| ==> 0 <= r.1[i] < |r.0| && r.0[r.1[i]].name == names[i]
    decreases |names|
  {
    if names != [] {
      var init, name := names[..|names| - 1], names[|names| - 1];
      MergeMaps(entries, init);
      var prior := MergeTags(entries, init);
      var r := MergeOne(prior, name);
      forall i | 0 <= i < |names|
        ensures 0 <= r.1[i] < |r.0| && r.0[r.1[i]].name == names[i]
      {
        if i < |init| {
          assert r.1[i] == r.1[..|prior.1|][i];
          assert r.0[prior.1[i]] == r.0[..|prior.0|][prior.1[i]];
          assert names[i] == init[i];
        }
      }
    }
  }

  lemma {:induction false} MergeAdds(entries: seq<QueryTag>, names: seq<string>)
    ensures forall k :: |entries| <= k < |MergeTags(entries, names).0| ==>
      !MergeTags(entries, names).0[k].checked && MergeTags(entries, names).0[k].name in names
    decreases |names|
  {
    if names != [] {
      var init, name := names[..|names| - 1], names[|names| - 1];
      MergeAdds(entries, init);
      var prior := MergeTags(entries, init);
      var r := MergeOne(prior, name);
      forall k | |entries| <= k < |r.0|
        ensures !r.0[k].checked && r.0[k].name in names
      {
        if k < |prior.0| {
          assert r.0[k] == r.0[..|prior.0|][k];
          assert !prior.0[k].checked && prior.0[k].name in init;
          assert names == init + [name];
        } else {
          assert names[|names| - 1] == name;
        }
      }
    }
  }

  lemma {:induction false} MergeFinds(entries: seq<QueryTag>, names: seq<string>)
    ensures forall i :: 0 <= i < |names| && FindLabel(entries, names[i]) != -1 ==>
      MergeTags(entries, names).1[i] == FindLabel(entries, names[i])
    decreases |names|
  {
    if names != [] {
      var init, name := names[..|names| - 1], names[|names| - 1];
      MergeFinds(entries, init);
      MergeKeeps(entries, init);
      var prior := MergeTags(entries, init);
      var r := MergeOne(prior, name);
      assert r == MergeTags(entries, names);
      FindInExtension(entries, prior.0, name);
      forall i | 0 <= i < |names| && FindLabel(entries, names[i]) != -1
        ensures r.1[i] == FindLabel(entries, names[i])
      {
        if i < |init| {
          assert r.1[i] == r.1[..|prior.1|][i];
          assert names[i] == init[i];
        } else {
          assert i == |prior.1| && names[i] == name;
          assert FindLabel(prior.0, name) == FindLabel(entries, name);
        }
      }
    }
  }

  /** A name found in a registry is found at the same index once entries
      are appended to it. */
  lemma {:induction false} FindInExtension(entries: seq<QueryTag>, merged: seq<QueryTag>, name: string)
    requires |entries| <= |merged| && merged[..|entries|] == entries
    ensures FindLabel(entries, name) != -1 ==> FindLabel(merged, name) == FindLabel(entries, name)
  {
    var f := FindLabel(entries, name);
    if f != -1 {
      forall k | 0 <= k < f
        ensures merged[k].name != name
      {
        assert merged[k] == entries[k];
      }
      assert merged[f] == entries[f];
    }
  }

  /** The tag loop of the import: the registry grows by MergeTags and the
      index of every imported tag is recorded. */
  method MergeInto(registry: Registry, names: seq<string>) returns (ids: seq<int>)
    modifies registry
    ensures (registry.tags, ids) == MergeTags(old(registry.tags), names)
  {
    ids := [];
    for i := 0 to |names|
      invariant (registry.tags, ids) == MergeTags(old(registry.tags), names[..i])
    {
      assert names[..i + 1][..i] == names[..i];
      ghost var prior := (registry.tags, ids);
      var name := names[i];
      var found := FindLabel(registry.tags, name);
      if found == -1 {
        registry.tags := registry.tags + [QueryTag(name, false)];
        ids := ids + [|registry.tags| - 1];
      } else {
        ids := ids + [found];
      }
      assert (registry.tags, ids) == MergeOne(prior, name);
    }
    assert names[..|names|] == names;
  }

  /** The import file's tag ids translated to registry indices; an id with
      no entry in the file's tag table has no index (-1). */
  function Remapped(tags: seq<int>, ids: seq<int>): (r: seq<int>)
    ensures |r| == |tags|
    ensures forall i :: 0 <= i < |tags| && 0 <= tags[i] < |ids| ==> r[i] == ids[tags[i]]
    ensures forall i :: 0 <= i < |tags| && !(0 <= tags[i] < |ids|) ==> r[i] == -1
  {
    seq(|tags|, i requires 0 <= i < |tags| => if 0 <= tags[i] < |ids| then ids[tags[i]] else -1)
  }

  /** The per-outfit loop that rewrites each tag id in place. */
  method RemapTags(tags: seq<int>, ids: seq<int>) returns (r: seq<int>)
    ensures r == Remapped(tags, ids)
  {
    r := tags;
    for i := 0 to |tags|
      invariant |r| == |tags|
      invariant forall k :: 0 <= k < i ==> r[k] == Remapped(tags, ids)[k]
      invariant forall k :: i <= k < |r| ==> r[k] == tags[k]
    {
      r := r[i := if 0 <= tags[i] < |ids| then ids[tags[i]] else -1];
    }
  }

  /** An imported outfit: its tags point into the registry. */
  function Imported(o: Outfit, ids: seq<int>): (r: Outfit)
    ensures r.tags == Remapped(o.tags, ids) && r.(tags := o.tags) == o
  {
    o.(tags := Remapped(o.tags, ids))
  }

  /** After the merge every imported tag id that names a tag of the file
      points at a registry entry with that tag's name. */
  lemma {:induction false} ImportKeepsTagNames(entries: seq<QueryTag>, names: seq<string>, tags: seq<int>)
    requires forall i :: 0 <= i < |tags| ==> 0 <= tags[i] < |names|
    ensures forall i :: 0 <= i < |tags| ==>
      var (merged, ids) := MergeTags(entries, names);
      0 <= Remapped(tags, ids)[i] < |merged| && merged[Remapped(tags, ids)[i]].name == names[tags[i]]
  {
    MergeTagsSound(entries, names);
    var (merged, ids) := MergeTags(entries, names);
    forall i | 0 <= i < |tags|
      ensures 0 <= Remapped(tags, ids)[i] < |merged| && merged[Remapped(tags, ids)[i]].name == names[tags[i]]
    {
      assert Remapped(tags, ids)[i] == ids[tags[i]];
    }
  }

  /** importWardrobe on a file: its name selects the deserializer; a
      decoded wardrobe has its tags merged into the registry and its
      outfits, each put in front of the list in turn, so that they end up
      first and in reverse order. */
  method ImportWardrobe(name: string, data: array<Byte>, registry: Registry, list: OutfitList)
    returns (r: Completion<Outcome<(), ImportError>>)
    modifies registry, list
    ensures !EndsWith(name, VanitaExtension) ==>
      r == (if EndsWith(name, JsonExtension) then Threw(StringThrown(JsonNotSupported)) else Normal(Failure(UnsupportedFormat)))
    ensures EndsWith(name, VanitaExtension) && Deserialize(data[..]).RangeError? ==> r == Threw(RangeErrorThrown)
    ensures EndsWith(name, VanitaExtension) && Deserialize(data[..]).Ok? && Deserialize(data[..]).value.Failure? ==>
      r == Normal(Failure(BinaryDeserializationFail(Deserialize(data[..]).value.error)))
    ensures !r.Normal? || r.value.Failure? ==> registry.tags == old(registry.tags) && list.items == old(list.items)
    ensures r.Normal? && r.value.Success? <==>
      EndsWith(name, VanitaExtension) && Deserialize(data[..]).Ok? && Deserialize(data[..]).value.Success?
    ensures r.Normal? && r.value.Success? ==>
      var w := Deserialize(data[..]).value.value;
      var (merged, ids) := MergeTags(old(registry.tags), w.tags);
      && registry.tags == merged
      && |list.items| == |w.outfits| + |old(list.items)|
      && list.items[|w.outfits|..] == old(list.items)
      && forall k :: 0 <= k < |w.outfits| ==>
           fresh(list.items[k]) && list.items[k].data == Imported(w.outfits[|w.outfits| - 1 - k], ids)
    ensures old(list.Valid()) ==> list.Valid()
  {
    if !EndsWith(name, VanitaExtension) {
      if EndsWith(name, JsonExtension) {
        return Threw(StringThrown(JsonNotSupported));
      }
      return Normal(Failure(UnsupportedFormat));
    }
    var result := DesBinary(data);
    if result.RangeError? {
      return Threw(RangeErrorThrown);
    }
    if result.value.Failure? {
      return Normal(Failure(BinaryDeserializationFail(result.value.error)));
    }
    var wardrobe := result.value.value;
    var ids := MergeInto(registry, wardrobe.tags);
    PrependImported(list, wardrobe.outfits, ids);
    return Normal(Success(()));
  }

  /** The outfit loop of the import: each outfit, its tags remapped, is put
      in front of the list as a new object. */
  method PrependImported(list: OutfitList, outfits: seq<Outfit>, ids: seq<int>)
    modifies list
    ensures |list.items| == |outfits| + |old(list.items)|
    ensures list.items[|outfits|..] == old(list.items)
    ensures forall k :: 0 <= k < |outfits| ==>
      fresh(list.items[k]) && list.items[k].data == Imported(outfits[|outfits| - 1 - k], ids)
    ensures old(list.Valid()) ==> list.Valid()
  {
    for i := 0 to |outfits|
      invariant |list.items| == i + |old(list.items)|
      invariant list.items[i..] == old(list.items)
      invariant forall k :: 0 <= k < i ==>
        fresh(list.items[k]) && list.items[k].data == Imported(outfits[i - 1 - k], ids)
      invariant old(list.Valid()) ==> list.Valid()
    {
      var tags := RemapTags(outfits[i].tags, ids);
      var loaded := new LoadedOutfit(outfits[i].(tags := tags));
      list.items := [loaded] + list.items;
    }
  }

  // ---- The tag index as written ----

  /** One turn of the tag loop as written: a tag that is not yet
      registered is mapped to the registry's new length, which push
      returns, rather than to the index of the entry just pushed. */
  function MergeOneAsWritten(prior: (seq<QueryTag>, seq<int>), name: string): (r: (seq<QueryTag>, seq<int>))
    ensures r.0 == MergeOne(prior, name).0 && |r.1| == |prior.1| + 1 && r.1[..|prior.1|] == prior.1
    ensures r.1[|prior.1|] == MergeOne(prior, name).1[|prior.1|] + (if FindLabel(prior.0, name) == -1 then 1 else 0)
  {
    var found := FindLabel(prior.0, name);
    if found == -1 then (prior.0 + [QueryTag(name, false)], prior.1 + [|prior.0| + 1])
    else (prior.0, prior.1 + [found])
  }

  function MergeTagsAsWritten(entries: seq<QueryTag>, names: seq<string>): (r: (seq<QueryTag>, seq<int>))
    ensures |r.1| == |names|
    decreases |names|
  {
    if names == [] then (entries, [])
    else MergeOneAsWritten(MergeTagsAsWritten(entries, names[..|names| - 1]), names[|names| - 1])
  }

  /** The registry itself grows as intended; only the recorded indices of
      newly pushed tags differ, each by one. */
  lemma {:induction false} AsWrittenRegistry(entries: seq<QueryTag>, names: seq<string>)
    ensures MergeTagsAsWritten(entries, names).0 == MergeTags(entries, names).0
    ensures forall i :: 0 <= i < |names| ==>
      MergeTagsAsWritten(entries, names).1[i] - MergeTags(entries, names).1[i] in {0, 1}
    decreases |names|
  {
    if names != [] {
      var init, name := names[..|names| - 1], names[|names| - 1];
      AsWrittenRegistry(entries, init);
      var w, c := MergeTagsAsWritten(entries, init), MergeTags(entries, init);
      var w', c' := MergeTagsAsWritten(entries, names), MergeTags(entries, names);
      assert w' == MergeOneAsWritten(w, name) && c' == MergeOne(c, name);
      forall i | 0 <= i < |init|
        ensures w'.1[i] == w.1[i] && c'.1[i] == c.1[i]
      {
        assert w'.1[i] == w'.1[..|w.1|][i];
        assert c'.1[i] == c'.1[..|c.1|][i];
      }
    }
  }

  /** Importing one tag into an empty registry maps that tag to index 1,
      past the end of the one-entry registry, where index 0 was intended. */
  lemma ImportIndexPastEnd()
    ensures MergeTagsAsWritten([], ["a"]) == ([QueryTag("a", false)], [1])
    ensures MergeTags([], ["a"]) == ([QueryTag("a", false)], [0])
  {
    assert ["a"][..0] == [];
    assert FindLabel([], "a") == -1;
    assert MergeOneAsWritten(([], []), "a") == ([QueryTag("a", false)], [1]);
    assert MergeOne(([], []), "a") == ([QueryTag("a", false)], [0]);
  }
}
