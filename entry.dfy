// The codec entry point: the version number every wardrobe file starts
// with, read before a codec is chosen.

module Entry {
  import opened Results
  import opened Bytes
  import opened Buf

  /** The first two bytes as a little-endian u16. A file shorter than two
      bytes makes the read throw a RangeError. */
  method DecodeVersion(data: array<Byte>) returns (r: Result<nat>)
    ensures r.Ok? <==> data.Length >= 2
    ensures r.Ok? ==> r.value == data[0] as int + 0x100 * data[1] as int && r.value < 0x1_0000
  {
    var b := new Buffer.From(data);
    r := b.ReadU16(0);
  }
}
