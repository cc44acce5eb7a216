# vanita wardrobe core in Dafny

vanita is a browser extension that keeps a wardrobe of Roblox avatar outfits.
This project models the core of its wardrobe:

- Codec v0. This is the binary `.vanita` file format. A two-byte version comes first. Then comes a tag table, and after it one variable-length record per outfit. The model covers the encoder, the decoder, the length calculators and the zod schema checks that guard encoding.
- `Buffer`. This is the little-endian byte buffer the codec writes into and reads from. It includes the float32 to binary16 conversions `f32tof16` and `f16tof32`.
- `entry.ts`, which reads the version number.
- `itself.ts`. This is export and import of a wardrobe. Import deserializes a file, merges its tag names into the tag registry, and prepends its outfits to the outfit list.
- `outfits.ts`. This is the tag registry and the outfit list. The model covers registering and unregistering tags, adding a tag to an outfit, duplicating and deleting outfits, sorting and querying.
- `color.ts`, the hex and RGB conversions.
- `backup.ts`. These are the restore point file names on Google Drive, `outfits-<createdAt>-<automatic>-<fileSize>.json`, and the listing that keeps them.
- The helpers `arraysEqual`, `clamp` and `daysBetween`.

Modelling choices:

- Byte strings are `seq<Byte>`, with `Byte` the integers 0..255.
- The buffer is a class over an `array<Byte>`. Its writers are methods proved against `Splice` of the little-endian bytes `LE(value, n)`. Its readers are functions that return `RangeError` where the source's `DataView` throws.
- Floats are float32 bit patterns. binary16 values are classified exactly: zero, subnormal, normal, infinity or NaN.
- The byte layout is a family of functions in `Layout`. `Layout.WardrobeBytes` is what the encoder writes. `Layout.DecodeAt` and `Layout.SafeDecodeAt` are what the decoder reads.
- The decoder passes every u64 it reads (asset ids and the created, modified and lastUsed stamps) through `Number()`. `Double.Nearest` models that conversion: round to the nearest double, ties to even. The schema keeps these fields at most 2^53 - 1, where the conversion is exact.
- `RoundTrip.WardrobeRoundTrip` proves that decoding an encoded wardrobe gives it back. Three things change on the way:
  - half-precision fields are quantized;
  - assets are regrouped with the run without metadata first;
  - a leading U+FEFF of a name is dropped by the UTF-8 decoder.
- The tag registry and the outfit list are classes whose fields the operations reassign. Outfits are objects (`Outfits.LoadedOutfit`), because `deleteOutfit` finds its target by identity.

## Model

| member | source | states |
|---|---|---|
| Half.F32ToF16 | src/lib/buffer.ts:5-26 | the binary16 result keeps the sign of the float32 input |
| Half.PackUnderflow | src/lib/buffer.ts:5-26 | an exponent below the half range packs to a signed zero |
| Half.PackOverflow | src/lib/buffer.ts:5-26 | an exponent above the half range packs to a signed infinity |
| Half.PackNormal | src/lib/buffer.ts:5-26 | an exponent in range keeps the sign, rebiases the exponent and truncates the fraction to its top 10 bits |
| Half.PackClasses | src/lib/buffer.ts:5-26 | f32tof16 never produces a subnormal or a NaN pattern |
| Half.QuantizeTruncates | src/lib/buffer.ts:5-26 | a packed and widened normal keeps its exponent and is the input truncated toward zero |
| Half.F16ToF32 | src/lib/buffer.ts:29-44 | a binary16 pattern reads as a signed class with its exponent and fraction ranges |
| Half.F16Classes | src/lib/buffer.ts:29-44 | the class of a pattern is decided by its low 15 bits, each case an if-and-only-if |
| Half.WidenExact | src/lib/buffer.ts:29-44 | widening a finite half value to float32 is exact |
| Half.RepackNormal | src/lib/buffer.ts:5-44 | a normal half pattern survives widening and repacking unchanged |
| Half.RepackSubnormal | src/lib/buffer.ts:5-44 | a subnormal half pattern repacks to a signed zero |
| Half.RepackSpecial | src/lib/buffer.ts:5-44 | zeros and infinities repack unchanged and NaN repacks to 0x7c00 |
| Half.QuantizeIdempotent | src/lib/buffer.ts:5-44 | quantizing through binary16 twice is quantizing once |
| Buf.Buffer.Create | src/lib/buffer.ts:58-61 | a new buffer of the given size holds zeros |
| Buf.Buffer.From | src/lib/buffer.ts:64-66 | the buffer is a view of the given array |
| Buf.Buffer.WriteU8 | src/lib/buffer.ts:69-71 | the byte at the offset becomes the value modulo 256 and nothing else changes |
| Buf.Buffer.WriteU16 | src/lib/buffer.ts:74-76 | two little-endian bytes of the value modulo 2^16 are spliced in at the offset |
| Buf.Buffer.WriteU32 | src/lib/buffer.ts:79-81 | four little-endian bytes are spliced in at the offset |
| Buf.Buffer.WriteU64 | src/lib/buffer.ts:84-86 | eight little-endian bytes of the value modulo 2^64 are spliced in at the offset |
| Buf.Buffer.WriteI8 | src/lib/buffer.ts:89-91 | the two's complement byte is spliced in at the offset |
| Buf.Buffer.WriteI16 | src/lib/buffer.ts:94-96 | two two's complement bytes are spliced in at the offset |
| Buf.Buffer.WriteI32 | src/lib/buffer.ts:99-101 | four two's complement bytes are spliced in at the offset |
| Buf.Buffer.WriteI64 | src/lib/buffer.ts:104-106 | eight two's complement bytes are spliced in at the offset |
| Buf.Buffer.WriteF16 | src/lib/buffer.ts:109-113 | the binary16 pattern of the float is spliced in as two bytes |
| Buf.Buffer.WriteF32 | src/lib/buffer.ts:116-118 | the float32 pattern is spliced in as four bytes |
| Buf.Buffer.WriteF64 | src/lib/buffer.ts:121-123 | the float64 pattern is spliced in as eight bytes |
| Buf.Buffer.Fill | src/lib/buffer.ts:126-128 | the source bytes are copied in at the offset and nothing else changes |
| Buf.Buffer.Slice | src/lib/buffer.ts:131-133 | the bytes between start and end, clamped like ArrayBuffer.slice, and empty when end is before start |
| Buf.Buffer.WriteUtf8 | src/lib/buffer.ts:135-142 | the UTF-8 encoding is written at the offset and its byte length returned |
| Buf.Buffer.ReadU8 | src/lib/buffer.ts:145-147 | the byte at the offset, a RangeError exactly when the offset is past the end |
| Buf.Buffer.ReadU16 | src/lib/buffer.ts:150-152 | the little-endian 16-bit value, a RangeError exactly when a byte is missing |
| Buf.Buffer.ReadU32 | src/lib/buffer.ts:155-157 | a 32-bit value whose base-256 digits are the four bytes |
| Buf.Buffer.ReadU64 | src/lib/buffer.ts:160-162 | a 64-bit value whose base-256 digits are the eight bytes, kept exact like the BigInt readu64 returns |
| Buf.Buffer.ReadI8 | src/lib/buffer.ts:165-167 | the byte read as two's complement |
| Buf.Buffer.ReadI16 | src/lib/buffer.ts:170-172 | the signed 16-bit value whose two's complement little-endian bytes are the two bytes read, a RangeError exactly when a byte is missing |
| Buf.Buffer.ReadI32 | src/lib/buffer.ts:175-177 | the signed 32-bit value whose two's complement little-endian bytes are the four bytes read, a RangeError exactly when a byte is missing |
| Buf.Buffer.ReadI64 | src/lib/buffer.ts:180-182 | the signed 64-bit value whose two's complement little-endian bytes are the eight bytes read, a RangeError exactly when a byte is missing |
| Buf.Buffer.ReadF16 | src/lib/buffer.ts:185-187 | f16tof32 of the little-endian 16-bit pattern |
| Buf.Buffer.ReadF32 | src/lib/buffer.ts:190-192 | the float32 pattern whose digits are the four bytes |
| Buf.Buffer.ReadF64 | src/lib/buffer.ts:195-197 | the float64 pattern whose digits are the eight bytes |
| Buf.Buffer.ReadUtf8 | src/lib/buffer.ts:199-205 | the UTF-8 decoding of the bytes, a RangeError exactly when they overrun the buffer, and an empty string for length 0 |
| Bytes.WriteThenRead | src/lib/buffer.ts:69-86 | an unsigned value written and read back at the same width is the value modulo 2^(8n) |
| Bytes.WriteThenReadSigned | src/lib/buffer.ts:89-106 | a signed value in range written and read back as two's complement is the value |
| Bytes.FromLEofLE | src/lib/buffer.ts:145-162 | the little-endian reader inverts the writer on values in range |
| Bytes.LEofFromLE | src/lib/buffer.ts:145-162 | the little-endian writer inverts the reader |
| Utf8.EncodeChar | src/lib/buffer.ts:135-142 | one to four bytes per scalar value, by the code point ranges of UTF-8 |
| Utf8.DecodeEncode | src/lib/buffer.ts:135-205 | decoding the UTF-8 encoding returns the string, less a leading U+FEFF |
| Utf8.Utf16AtMostUtf8 | src/modules/wardrobe/codec/v0.ts:120 | a string's UTF-16 length never exceeds its UTF-8 byte length |
| Schema.OutfitValid | src/modules/wardrobe/codec/v0.ts:115-147 | defines outfitSchema: a name of at most 255 UTF-16 units; u64 timestamps clamped to 2^53 - 1; a u16 use count; at most 255 u8 tag ids; u8 colour channels; scales in [0, 2]; body type in [0, 1]; avatar type R6 or R15; every asset valid. Proved of it: a valid name has at most 255 characters |
| Schema.TagsValid | src/modules/wardrobe/codec/v0.ts:149 | defines tagsSchema: at most 255 tags, each of at most 255 UTF-16 units. Proved of it: each valid tag has at most 255 characters |
| Schema.WithMetaOf | src/modules/wardrobe/codec/v0.ts:232-245 | the assets that carry metadata, in order |
| Schema.WithoutMetaOf | src/modules/wardrobe/codec/v0.ts:232-245 | the assets without metadata, in order |
| Schema.Partition | src/modules/wardrobe/codec/v0.ts:232-245 | the two asset runs together are a permutation of the assets |
| Schema.F16RangePacksFinite | src/modules/wardrobe/codec/v0.ts:74-160 | a scale the schema accepts packs to a finite binary16 value |
| Layout.NameBytes | src/modules/wardrobe/codec/v0.ts:221-225 | a name is stored as one length byte and its UTF-8 bytes |
| Layout.TagIdsBytes | src/modules/wardrobe/codec/v0.ts:198-207 | tag ids are stored as a count byte and one byte per id |
| Layout.AssetsBytes | src/modules/wardrobe/codec/v0.ts:232-274 | two count bytes, 8 bytes per asset without metadata and a fixed block per asset with metadata |
| Layout.ThumbnailBytes | src/modules/wardrobe/codec/v0.ts:356-361 | a thumbnail is stored as a 4-byte length and its bytes |
| Layout.OutfitBytes | src/modules/wardrobe/codec/v0.ts:445-476 | the record length is the header plus name, tag ids, assets and thumbnail |
| Layout.TagsBytes | src/modules/wardrobe/codec/v0.ts:341-354 | the tag table is a count byte and a length-prefixed entry per tag |
| Layout.WardrobeBytes | src/modules/wardrobe/codec/v0.ts:537-572 | the file is version 0 as two bytes, then the tag table, then the outfit records |
| Layout.NameAt | src/modules/wardrobe/codec/v0.ts:227-230 | a name read succeeds exactly when its length byte and bytes are in the buffer |
| Layout.TagIdsAt | src/modules/wardrobe/codec/v0.ts:209-218 | the ids read are the bytes after the count, and the read succeeds exactly when they are in the buffer |
| Layout.U64Of | src/modules/wardrobe/codec/v0.ts:480-482 | Number(readu64): the u64 rounded to a double, and the u64 itself when it is at most 2^53 - 1 (also the ids at v0.ts:286 and v0.ts:295) |
| Double.ExcessBounds | src/modules/wardrobe/codec/v0.ts:480-482 | the spacing of doubles at v is 2^Excess(v): v lies below 2^53 of those steps and, when Excess(v) > 0, at or above 2^52 of them |
| Double.NearestRounds | src/modules/wardrobe/codec/v0.ts:480-482 | Number() of a BigInt is a double (a significand of at most 53 bits times the spacing), within half a step of the value, with the even significand on a tie |
| Double.NearestExamples | src/modules/wardrobe/codec/v0.ts:480-482 | the largest u64 reads back as 2^64 and 2^53 + 1 as 2^53 |
| Layout.IdsAt | src/modules/wardrobe/codec/v0.ts:276-309 | n assets without metadata are read exactly when 8n bytes are available; each id is Number() of its u64 (Layout.U64Of) |
| Layout.BlocksAt | src/modules/wardrobe/codec/v0.ts:276-309 | n assets with metadata are read exactly when n blocks are available; each id is Number() of its u64 (Layout.U64Of) |
| Layout.ThumbnailAt | src/modules/wardrobe/codec/v0.ts:363-366 | a thumbnail read fails exactly when its length field is missing, and it is clamped to the buffer like slice |
| Layout.OutfitAt | src/modules/wardrobe/codec/v0.ts:478-535 | a record read needs at least the fixed header |
| Layout.OutfitLenAt | src/modules/wardrobe/codec/v0.ts:398-443 | 0 once a full header no longer fits, otherwise a length of at least 65 bytes |
| Layout.TagsAt | src/modules/wardrobe/codec/v0.ts:325-339 | at most 255 tag names are read |
| Layout.LoopStaged | src/modules/wardrobe/codec/v0.ts:597-617 | the record loop gives the same result as computing all offsets first and then reading each record |
| Layout.DecodeAt | src/modules/wardrobe/codec/v0.ts:574-628 | no result for files shorter than 3 bytes |
| Layout.SafeDecodeAt | src/modules/wardrobe/codec/v0.ts:646-668 | a wardrobe exactly when decode returns one without throwing, always with version 0 |
| RoundTrip.DecodedAsset | src/modules/wardrobe/codec/v0.ts:232-309 | an asset read back keeps its kind and id |
| RoundTrip.NameRead | src/modules/wardrobe/codec/v0.ts:221-230 | a name whose UTF-8 fits 255 bytes reads back as its bytes |
| RoundTrip.TagIdsRead | src/modules/wardrobe/codec/v0.ts:198-218 | tag ids that fit a byte read back unchanged |
| RoundTrip.AssetsRead | src/modules/wardrobe/codec/v0.ts:232-309 | stored assets read back as the run without metadata followed by the decoded run with metadata |
| RoundTrip.ThumbnailRead | src/modules/wardrobe/codec/v0.ts:356-366 | a stored thumbnail reads back unchanged |
| RoundTrip.HeaderRead | src/modules/wardrobe/codec/v0.ts:445-535 | the fixed header reads back with quantized half-precision fields |
| RoundTrip.OutfitRead | src/modules/wardrobe/codec/v0.ts:445-535 | a stored outfit record reads back as the decoded outfit |
| RoundTrip.OutfitLenRead | src/modules/wardrobe/codec/v0.ts:368-443 | readOutfitLen on a stored record gives its byte length |
| RoundTrip.OutfitsRead | src/modules/wardrobe/codec/v0.ts:597-617 | a run of stored records that ends the file reads back as the decoded outfits |
| RoundTrip.TagsRead | src/modules/wardrobe/codec/v0.ts:325-354 | a stored tag table reads back as the tags, each less a leading U+FEFF |
| RoundTrip.WardrobeRoundTrip | src/modules/wardrobe/codec/v0.ts:537-668 | safeDecode of what encode writes for fitting tags and outfits is the decoded wardrobe |
| RoundTrip.DecodeParts | src/modules/wardrobe/codec/v0.ts:574-628 | a tag table followed by a record run that reads to the end decodes to that wardrobe |
| Codec.WriteV3 | src/modules/wardrobe/codec/v0.ts:170-174 | the three float32 components are spliced in at the offset |
| Codec.WriteRgb24 | src/modules/wardrobe/codec/v0.ts:183-187 | the three colour bytes are spliced in at the offset |
| Codec.WriteTagIds | src/modules/wardrobe/codec/v0.ts:198-207 | the count and the ids are spliced in and 1 + count returned |
| Codec.WriteName | src/modules/wardrobe/codec/v0.ts:221-225 | the length byte and UTF-8 bytes are spliced in and their total returned |
| Codec.SplitAssets | src/modules/wardrobe/codec/v0.ts:232-245 | the loop splits assets into the runs with and without metadata |
| Codec.WriteBlock | src/modules/wardrobe/codec/v0.ts:261-270 | one asset-with-metadata block is spliced in |
| Codec.WriteIdRun | src/modules/wardrobe/codec/v0.ts:254-256 | the 8-byte ids of the run are spliced in |
| Codec.WriteBlockRun | src/modules/wardrobe/codec/v0.ts:260-271 | the blocks of the run are spliced in |
| Codec.WriteAssets | src/modules/wardrobe/codec/v0.ts:232-274 | the whole asset section is spliced in and its length returned |
| Codec.WriteThumbnail | src/modules/wardrobe/codec/v0.ts:356-361 | the length field and the image are spliced in and 4 + length returned |
| Codec.CalcTagsLen | src/modules/wardrobe/codec/v0.ts:311-323 | the computed length is the length of the tag table the writer produces |
| Codec.WriteTags | src/modules/wardrobe/codec/v0.ts:341-354 | the tag table is spliced in and its length returned |
| Codec.CalcOutfitLen | src/modules/wardrobe/codec/v0.ts:368-396 | the computed length is the length of the record the writer produces |
| Codec.WriteHeader | src/modules/wardrobe/codec/v0.ts:445-476 | the timestamps and use count of the header are spliced in |
| Codec.WriteColors | src/modules/wardrobe/codec/v0.ts:445-476 | the six body colours are spliced in |
| Codec.WriteScales | src/modules/wardrobe/codec/v0.ts:445-476 | the half-precision scales, body type and avatar type are spliced in |
| Codec.WriteOutfit | src/modules/wardrobe/codec/v0.ts:445-476 | the whole record is spliced in and its length returned |
| Codec.OutfitsByteLen | src/modules/wardrobe/codec/v0.ts:540-548 | the sum of the record lengths is the length of the record run |
| Codec.WriteOutfits | src/modules/wardrobe/codec/v0.ts:564-569 | the records are written back to back |
| Codec.Encode | src/modules/wardrobe/codec/v0.ts:537-572 | the buffer holds exactly the wardrobe bytes |
| Codec.SafeEncode | src/modules/wardrobe/codec/v0.ts:630-644 | a buffer exactly when the tags and every outfit pass the schemas, and then it holds the wardrobe bytes |
| Codec.ReadName | src/modules/wardrobe/codec/v0.ts:227-230 | the decoded name and its size, failing exactly when the layout read fails |
| Codec.ReadTags | src/modules/wardrobe/codec/v0.ts:325-339 | the loop reads the tag table the layout function reads |
| Codec.ReadRecords | src/modules/wardrobe/codec/v0.ts:597-617 | the while loop over record lengths computes the layout's record loop |
| Codec.ReadOutfits | src/modules/wardrobe/codec/v0.ts:597-617 | the outfit records read are those of the layout |
| Codec.Decode | src/modules/wardrobe/codec/v0.ts:574-628 | the result is the layout decoder's, including its errors |
| Codec.SafeDecode | src/modules/wardrobe/codec/v0.ts:646-668 | the result is the layout's safe decoder |
| Entry.DecodeVersion | src/modules/wardrobe/codec/entry.ts:3-6 | the little-endian version, a RangeError exactly when fewer than 2 bytes exist |
| Itself.ExportBinary | src/modules/wardrobe/itself.ts:25-34 | a vanita blob exactly when encoding succeeds, and it holds the wardrobe bytes |
| Itself.ExportWardrobe | src/modules/wardrobe/itself.ts:118-123 | JSON always exports, and binary exports as exportBinary does |
| Itself.Deserialize | src/modules/wardrobe/itself.ts:40-52 | a RangeError exactly below 2 bytes, UnsupportedVersion exactly for a nonzero version, otherwise safeDecode's answer |
| Itself.DesBinary | src/modules/wardrobe/itself.ts:40-52 | the method computes Deserialize |
| Itself.DeserializeExport | src/modules/wardrobe/itself.ts:25-52 | deserializing an exported wardrobe gives the decoded wardrobe back |
| Itself.MergeTags | src/modules/wardrobe/itself.ts:80-94 | the merge loop, with the new index of a pushed tag: one id per imported tag name; what the ids mean is proved by Itself.MergeTagsSound |
| Itself.MergeOne | src/modules/wardrobe/itself.ts:80-94 | one tag name: an existing label keeps the registry and reuses its index, a new one is pushed unchecked |
| Itself.MergeTagsSound | src/modules/wardrobe/itself.ts:80-94 | the old registry is a prefix, every id names its tag, new entries are unchecked tags of the file, existing labels keep their index |
| Itself.MergeInto | src/modules/wardrobe/itself.ts:80-94 | the loop leaves the registry and ids that MergeTags specifies |
| Itself.Remapped | src/modules/wardrobe/itself.ts:96-111 | each tag id is replaced by its merged id, and an id outside the file table by undefined, here -1 |
| Itself.RemapTags | src/modules/wardrobe/itself.ts:96-111 | the loop computes Remapped |
| Itself.ImportKeepsTagNames | src/modules/wardrobe/itself.ts:80-111 | every remapped tag of an imported outfit names the same label it named in the file |
| Itself.PrependImported | src/modules/wardrobe/itself.ts:96-111 | the imported outfits are unshifted as new objects in reverse file order ahead of the old list |
| Itself.ImportWardrobe | src/modules/wardrobe/itself.ts:62-116 | each error case as the source reports it, nothing changed on failure, and on success the merged registry and the prepended outfits |
| Itself.MergeOneAsWritten | src/modules/wardrobe/itself.ts:84-89 | the code as written stores the new registry length rather than the new index |
| Itself.AsWrittenRegistry | src/modules/wardrobe/itself.ts:80-94 | as written, the registry is the same and each id is off by 0 or 1 |
| Itself.ImportIndexPastEnd | src/modules/wardrobe/itself.ts:88-89 | importing tag "a" into an empty registry gives id 1 as written and 0 as intended |
| Outfits.IndexOf | src/modules/wardrobe/outfits.ts:48-54 | the first index holding the value, or -1 exactly when it is absent |
| Outfits.RemoveAt | src/modules/wardrobe/outfits.ts:48-54 | splice(i, 1): the elements before i stay and those after move down one |
| Outfits.RemoveDistinct | src/modules/wardrobe/outfits.ts:48-54 | removing an object from a list of distinct objects removes it entirely |
| Outfits.FindLabel | src/modules/wardrobe/outfits.ts:175 | the first tag with the label, or -1 exactly when none has it |
| Outfits.Duplicate | src/modules/wardrobe/outfits.ts:37-46 | the copy is created now and never modified or used, and is otherwise identical |
| Outfits.DuplicateOutfit | src/modules/wardrobe/outfits.ts:37-46 | a new object with the copy is put at the front and the rest of the list is unchanged |
| Outfits.DeleteOutfit | src/modules/wardrobe/outfits.ts:48-54 | the target object is removed at its index, or nothing changes when it is absent |
| Outfits.RegisterTag | src/modules/wardrobe/outfits.ts:123-140 | TooLong over 255 UTF-16 units, LimitExceeded at 255 tags, otherwise pushed unchecked with its new index |
| Outfits.Unassociate | src/modules/wardrobe/outfits.ts:151-159 | one occurrence of the id is removed, modified is set only if it was there, and nothing else changes |
| Outfits.Dissociate | src/modules/wardrobe/outfits.ts:150-160 | the outfit object's data becomes Unassociate of the old data |
| Outfits.DissociateAll | src/modules/wardrobe/outfits.ts:150-160 | every outfit in the list is dissociated from the tag |
| Outfits.UnregisterTag | src/modules/wardrobe/outfits.ts:142-167 | DoesntExist with no change for a bad id, otherwise the tag is removed and every outfit dissociated |
| Outfits.Renumbered | src/modules/wardrobe/outfits.ts:142-167 | the corrected ids after unregistering: those above the removed id move down by one and the others stay |
| Outfits.RenumberKeepsLabels | src/modules/wardrobe/outfits.ts:142-167 | with the renumbering every remaining id names the same tag in the shortened registry |
| Outfits.UnregisterRelabels | src/modules/wardrobe/outfits.ts:142-167 | as written, an outfit tagged b (id 1) of a, b, c is still tagged 1 after unregistering a, and 1 now names c |
| Outfits.AddTagToOutfit | src/modules/wardrobe/outfits.ts:169-197 | each error in the order the source checks, known labels reused, new ones registered, and the id appended |
| Outfits.SortOutfits | src/modules/wardrobe/outfits.ts:402-424 | the list is a permutation of the old list, ordered by the chosen key and direction, and outfits with equal keys keep their relative order (Array.prototype.sort is stable) |
| Outfits.InsertionSort | src/modules/wardrobe/outfits.ts:402-424 | the sorted sequence, each place naming the distinct original index it came from, equal keys in original index order |
| Outfits.InsertTracked | src/modules/wardrobe/outfits.ts:402-424 | one insertion step keeps the index bookkeeping: no index repeats and equal keys stay in index order |
| Outfits.Keys | src/modules/wardrobe/outfits.ts:402-424 | the sort key of every outfit, in list order |
| Outfits.Insert | src/modules/wardrobe/outfits.ts:402-424 | one insertion step keeps a permutation with matching keys and extends the sorted prefix and the stable index bookkeeping over it |
| Outfits.MovedPermutes | src/modules/wardrobe/outfits.ts:402-424 | moving one element down is a permutation |
| Outfits.InsertSorted | src/modules/wardrobe/outfits.ts:402-424 | inserting a key after the last smaller-or-equal key keeps the prefix sorted |
| Outfits.TrimStart | src/modules/wardrobe/outfits.ts:433 | a suffix of the text whose dropped characters are all ECMAScript white space and which does not start with any |
| Outfits.TrimEnd | src/modules/wardrobe/outfits.ts:433 | a prefix of the text whose dropped characters are all white space and which does not end with any |
| Outfits.Trim | src/modules/wardrobe/outfits.ts:433 | String.prototype.trim: no white space at either end, and empty exactly when the text is all white space |
| Outfits.Passes | src/modules/wardrobe/outfits.ts:426-485 | the three filters of queryOutfits; a blank query with no checked tag and unused outfits shown lets every outfit through, and an "and" query with a checked tag rejects an untagged outfit |
| Outfits.QueryOutfits | src/modules/wardrobe/outfits.ts:426-485 | a subsequence holding exactly the outfits that pass the query (the name filter uses the trimmed and lower-cased query), and everything when no filter applies |
| Outfits.AssetsToRbxFormat | src/modules/wardrobe/outfits.ts:210-228 | one accessory per asset, carrying its id, in order |
| Color.Captured | src/lib/color.ts:9-19 | the regular expression matches exactly six hex digits, with an optional leading '#' |
| Color.Hex2Rgb | src/lib/color.ts:9-19 | a colour exactly when the string matches, with channels in 0..255 |
| Color.Rgb2Hex | src/lib/color.ts:25-27 | six lower-case hex digits |
| Color.Hex2RgbOfRgb2Hex | src/lib/color.ts:9-27 | parsing the hex of a colour gives the colour back |
| Color.Rgb2HexOfHex2Rgb | src/lib/color.ts:9-27 | the hex of a parsed colour is the matched digits in lower case |
| Backup.EncodeMetadata | src/modules/backup.ts:36-38 | the name is the prefix, the fields joined by '-', and the extension |
| Backup.Split | src/modules/backup.ts:23 | String.split always gives at least one part |
| Backup.FirstIndex | src/modules/backup.ts:23 | the first index of the character |
| Backup.TrimStart | src/modules/backup.ts:24-27 | no longer than the text, and its first character is not white space |
| Backup.TrimStartDrops | src/modules/backup.ts:24-27 | parseInt's leading white space is dropped: the result is a suffix of the text, and every dropped character is white space |
| Backup.ParseInt | src/modules/backup.ts:24-27 | Number.parseInt: a number only comes from text that, after its leading white space, starts with a sign or a digit, and a negative one only after a '-' |
| Backup.ParseDigits | src/modules/backup.ts:24-27 | parseInt of the decimal digits of n is n |
| Backup.ParseNaN | src/modules/backup.ts:24-27 | parseInt of "NaN" is NaN |
| Backup.DecodeMetadata | src/modules/backup.ts:18-34 | automatic is true exactly when the third field does not parse to 0 |
| Backup.DecodeEncode | src/modules/backup.ts:18-38 | decoding an encoded name gives the metadata back when createdAt and fileSize are NaN or non-negative integers printed as decimal digits |
| Backup.Kept | src/modules/backup.ts:51-62 | exactly the files whose names start with "outfits-" |
| Backup.RestorePoints | src/modules/backup.ts:51-62 | the loop gives one restore point per kept file, carrying its id, in order |
| ArrayUtil.ArraysEqual | src/lib/util.ts:40-64 | true exactly when the references match, or both arrays exist and have equal contents |
| Util.Clamp | src/modules/util.ts:1-5 | min below the range, max above it, and the value inside it |
| Util.ClampInRange | src/modules/util.ts:1-5 | for a non-empty range the result is in the range |
| Util.ClampIdempotent | src/modules/util.ts:1-5 | clamping twice is clamping once |
| Time.DaysBetween | src/lib/time.ts:1-10 | the whole number of days nearest to the distance, halves rounded up |
| Time.NearestDay | src/lib/time.ts:1-10 | any n meeting that rounding condition is the result |
| Time.DaysBetweenSymmetric | src/lib/time.ts:1-10 | the order of the two dates does not matter |
| Time.SameDay | src/lib/time.ts:1-10 | a date is 0 days from itself |
| Time.WholeDays | src/lib/time.ts:1-10 | k whole days apart gives k |
| Findings.NameLengthWraps | src/modules/wardrobe/codec/v0.ts:221-225 | a 128-character name passes the schema, its 256 UTF-8 bytes store length byte 0, and it reads back as the empty name |
| Findings.AssetCountWraps | src/modules/wardrobe/codec/v0.ts:247-250 | 256 valid assets without metadata store count byte 0 |

## Left out

- `toBase64` (src/lib/buffer.ts:207-218) is not modelled. It only produces text and nothing in the core reads it back.
- `exportJSON` and `desJSON` are not modelled: JSON serialization is outside the binary core. A JSON export is the value `JsonBlob(wardrobe)`.
- `Blob`, `File.arrayBuffer`, `URL.createObjectURL` and thumbnail URLs are not modelled. Import takes the file name and bytes as parameters.
- Buf.Buffer.Create and Buf.Buffer.From: the `littleEndian` flag of `create` and `from` is dropped, and the buffer is always little-endian. Every caller in the core passes `true`.
- Promises and `async` are not modelled.
- `Date.now()` is a `now` parameter.
- `getRestorePoints`: the OAuth token, the Drive listing call and their failures are not modelled. Only the loop over the listed files is.
- `console` output is not modelled.
- The Roblox avatar API operations (`wearOutfit`, `overwriteOutfit`, `saveAsRobloxOutfit`) are not modelled.
- `localeCompare` is not modelled. The alphabetical sort compares by a `rank` parameter that stands for it.
- Outfits.Passes: `toLocaleLowerCase` is a `lower` parameter, applied to the trimmed query and to each name. Locale-dependent case mapping is not modelled. `trim` is modelled by `Outfits.Trim`.
- Outfits.SortOutfits: `Array.prototype.sort` is modelled by one stable sort, an insertion sort. Any stable sort gives the same result for the same keys, but the source's comparison count is not modelled.
- Color.Rgb2Hex: requires channels in 0..255. The source's bit operations give other strings outside that range, and the callers pass RGB24 colours.
- Time.DaysBetween: works on integer milliseconds with exact rounding. `Math.round` on the floating point quotient is not modelled.
- Backup.EncodeMetadata: `Backup.Show` prints every integer as its decimal digits. The source's template literal uses `String()`, which prints an exponent form from 10^21 and other forms for non-integers and Infinity. Those are not modelled.
- Backup.ParseInt: reads digits into an unbounded integer. Precision loss above 2^53 and the exponent forms that `String()` prints for large numbers are not modelled.
- ArrayUtil.ArraysEqual: compares elements with Dafny equality. The JavaScript `!==` on NaN, which never equals itself, is not modelled.
- Itself.Remapped: an undefined tag id is -1. Non-integer tag ids are not modelled.
- Itself.ImportWardrobe: uses the corrected tag index, the registry length minus one (see Findings).
- Itself.ImportWardrobe: the JSON branch's `throw` is `Threw(StringThrown(...))`. A RangeError from reading a short file is `Threw(RangeErrorThrown)`.
- Outfits.UnregisterTag: keeps the code as written and does not renumber the remaining ids. The correction is `Outfits.Renumbered`, see Findings.
- Outfits.UnregisterTag: requires `list.Valid()`, meaning no outfit object is in the list twice. Every operation that adds an object adds a new one, so this holds throughout.
- Layout.OutfitAt: fixed-size field groups make one bounds check for the group. The source reads field by field, which fails in exactly the same cases.
- Buf.Buffer.WriteU8 and the other writers: they require the range to be in bounds. The source's `DataView` RangeError on an out-of-range write is not modelled. The encoder sizes its buffer exactly, so its writes are always in range.
- Utf8.Encode and Buf.Buffer.WriteUtf8: `string` here holds Unicode scalar values only. `TextEncoder` replaces a lone surrogate in a JavaScript string with U+FFFD, and that case is not modelled.
- Util.Clamp: works on reals. JavaScript NaN is not modelled. The source's `<` and `>` are false for NaN, so a NaN value comes back unchanged, and a NaN min or max lets the value or max through.
- Backup.DecodeEncode: numbers are unbounded integers printed as decimal digits. In the source the round trip holds for integers up to 2^53 - 1. Above that a JavaScript number may not hold the value, and from 10^21 `String()` prints an exponent form that `parseInt` reads back as its first digit.
- Floats are float32 bit patterns. Arithmetic on float values is not modelled, and float64 fields are stored patterns.

## Findings

| source | as written | input that shows it | evidently intended | confidence | as-written member | corrected member |
|---|---|---|---|---|---|---|
| src/modules/wardrobe/codec/v0.ts:120 and 221-225 | the schema limits a name to 255 UTF-16 units, but the writer stores its UTF-8 byte length in one byte, which wraps | a name of 128 copies of U+00E9: 128 units, 256 bytes, stored length byte 0, read back as "" | a name's UTF-8 length is at most 255 bytes (tags likewise, line 149) | not executed | Findings.NameLengthWraps | RoundTrip.WardrobeRoundTrip |
| src/modules/wardrobe/codec/v0.ts:144 and 247-250 | the asset array has no maximum, but each run's count is stored in one byte | 256 assets without metadata: count byte 0 | at most 255 assets per run | not executed | Findings.AssetCountWraps | RoundTrip.WardrobeRoundTrip |
| src/modules/wardrobe/outfits.ts:142-167 | `tags.splice(tagId, 1)` shifts the registry entries above the removed tag down, but the outfits' ids above it are not renumbered | tags a, b, c, an outfit tagged 1 (b), unregister 0: the outfit stays tagged 1, which now names c | every id above the removed one decremented, so each outfit keeps its labels | not executed | Outfits.UnregisterRelabels | Outfits.RenumberKeepsLabels |
| src/modules/wardrobe/itself.ts:88-89 | the id of a newly pushed tag is `push`'s return value, the new length | importing tag "a" into an empty registry: the outfit gets tag id 1, which does not exist | the index of the new tag, length - 1 | not executed | Itself.ImportIndexPastEnd | Itself.MergeTagsSound |

`Outfits.UnregisterTag` models the code as written, and `Outfits.Renumbered` is the correction for the tag-removal row. `Schema.OutfitFits` and `Schema.TagsFit` are the corrected schemas for the first two rows. They bound UTF-8 byte lengths and asset run counts by 255, and `RoundTrip.WardrobeRoundTrip` is proved under them.
