// The Buffer class: a fixed-size byte region with little-endian reads and
// writes at explicit offsets, block copies and UTF-8 string copies.

module Buf {
  import opened Results
  import opened Bytes
  import Half
  import Utf8

  /** A float64 bit pattern. */
  type Bits64 = x: int | 0 <= x < 0x1_0000_0000_0000_0000

  function Zeros(n: nat): (r: seq<Byte>)
    ensures |r| == n && forall i :: 0 <= i < n ==> r[i] == 0
  {
    if n == 0 then [] else Zeros(n - 1) + [0]
  }

  class Buffer {
    /** The ArrayBuffer. It is readonly: a Buffer always wraps the same
        region, whose length never changes. */
    const bytes: array<Byte>

    /** Buffer.create: a fresh zero-filled region of the given size. */
    constructor Create(size: nat)
      ensures fresh(bytes) && bytes[..] == Zeros(size)
    {
      bytes := new Byte[size](_ => 0);
    }

    /** Buffer.from: a view of an existing region (no copy). */
    constructor From(data: array<Byte>)
      ensures bytes == data
    {
      bytes := data;
    }

    method WriteLE(offset: nat, value: int, n: nat)
      requires offset + n <= bytes.Length
      modifies bytes
      ensures bytes[..] == Splice(old(bytes[..]), offset, LE(value, n))
    {
      var d := LE(value, n);
      forall i | 0 <= i < n {
        bytes[offset + i] := d[i];
      }
      SpliceIndex(old(bytes[..]), offset, d);
      assert bytes[..] == Splice(old(bytes[..]), offset, d);
    }

    method WriteU8(offset: nat, value: int)
      requires offset + 1 <= bytes.Length
      modifies bytes
      ensures bytes[..] == Splice(old(bytes[..]), offset, LE(value, 1))
    {
      WriteLE(offset, value, 1);
    }

    method WriteU16(offset: nat, value: int)
      requires offset + 2 <= bytes.Length
      modifies bytes
      ensures bytes[..] == Splice(old(bytes[..]), offset, LE(value, 2))
    {
      WriteLE(offset, value, 2);
    }

    method WriteU32(offset: nat, value: int)
      requires offset + 4 <= bytes.Length
      modifies bytes
      ensures bytes[..] == Splice(old(bytes[..]), offset, LE(value, 4))
    {
      WriteLE(offset, value, 4);
    }

    method WriteU64(offset: nat, value: int)
      requires offset + 8 <= bytes.Length
      modifies bytes
      ensures bytes[..] == Splice(old(bytes[..]), offset, LE(value, 8))
    {
      WriteLE(offset, value, 8);
    }

    method WriteI8(offset: nat, value: int)
      requires offset + 1 <= bytes.Length
      modifies bytes
      ensures bytes[..] == Splice(old(bytes[..]), offset, LE(value, 1))
    {
      WriteLE(offset, value, 1);
    }

    method WriteI16(offset: nat, value: int)
      requires offset + 2 <= bytes.Length
      modifies bytes
      ensures bytes[..] == Splice(old(bytes[..]), offset, LE(value, 2))
    {
      WriteLE(offset, value, 2);
    }

    method WriteI32(offset: nat, value: int)
      requires offset + 4 <= bytes.Length
      modifies bytes
      ensures bytes[..] == Splice(old(bytes[..]), offset, LE(value, 4))
    {
      WriteLE(offset, value, 4);
    }

    method WriteI64(offset: nat, value: int)
      requires offset + 8 <= bytes.Length
      modifies bytes
      ensures bytes[..] == Splice(old(bytes[..]), offset, LE(value, 8))
    {
      WriteLE(offset, value, 8);
    }

    /** writef16: the binary16 packing of a float32 pattern, as a u16. */
    method WriteF16(offset: nat, value: Half.Bits32)
      requires offset + 2 <= bytes.Length
      modifies bytes
      ensures bytes[..] == Splice(old(bytes[..]), offset, LE(Half.F32ToF16(value), 2))
    {
      WriteLE(offset, Half.F32ToF16(value), 2);
    }

    method WriteF32(offset: nat, value: Half.Bits32)
      requires offset + 4 <= bytes.Length
      modifies bytes
      ensures bytes[..] == Splice(old(bytes[..]), offset, LE(value, 4))
    {
      WriteLE(offset, value, 4);
    }

    method WriteF64(offset: nat, value: Bits64)
      requires offset + 8 <= bytes.Length
      modifies bytes
      ensures bytes[..] == Splice(old(bytes[..]), offset, LE(value, 8))
    {
      WriteLE(offset, value, 8);
    }

    /** fill: copies source into [offset, offset + |source|). */
    method Fill(offset: nat, source: seq<Byte>)
      requires offset + |source| <= bytes.Length
      modifies bytes
      ensures bytes[..] == Splice(old(bytes[..]), offset, source)
    {
      forall i | 0 <= i < |source| {
        bytes[offset + i] := source[i];
      }
      SpliceIndex(old(bytes[..]), offset, source);
      assert bytes[..] == Splice(old(bytes[..]), offset, source);
    }

    /** slice: an independent copy of [start, end), with the clamping and
        negative indices of ArrayBuffer.prototype.slice. */
    function Slice(start: int, end: int): (r: seq<Byte>)
      reads bytes
      ensures |r| <= bytes.Length
      ensures 0 <= start <= end <= bytes.Length ==> r == bytes[start..end]
      ensures 0 <= start <= bytes.Length <= end ==> r == bytes[start..]
      ensures 0 <= end <= start ==> r == []
    {
      SliceRange(bytes[..], start, end)
    }

    /** writeutf8: stores the UTF-8 bytes of value at offset, one byte at a
        time, and returns their count. */
    method WriteUtf8(offset: nat, value: string) returns (n: nat)
      requires offset + |Utf8.Encode(value)| <= bytes.Length
      modifies bytes
      ensures n == |Utf8.Encode(value)|
      ensures bytes[..] == Splice(old(bytes[..]), offset, Utf8.Encode(value))
    {
      var utf8Arr := Utf8.Encode(value);
      var i := 0;
      SpliceNil(bytes[..], offset);
      while i < |utf8Arr|
        invariant 0 <= i <= |utf8Arr|
        invariant bytes[..] == Splice(old(bytes[..]), offset, utf8Arr[..i])
      {
        ghost var cur := bytes[..];
        WriteU8(offset + i, utf8Arr[i]);
        SpliceStep(old(bytes[..]), offset, utf8Arr, i, cur, bytes[..]);
        i := i + 1;
      }
      assert utf8Arr[..i] == utf8Arr;
      n := |utf8Arr|;
    }

    function ReadU8(offset: nat): (r: Result<nat>)
      reads bytes
      ensures r.Ok? <==> offset + 1 <= bytes.Length
      ensures r.Ok? ==> r.value == bytes[offset]
    {
      UIntDigits(bytes[..], offset, 1);
      UIntAt(bytes[..], offset, 1)
    }

    function ReadU16(offset: nat): (r: Result<nat>)
      reads bytes
      ensures r.Ok? <==> offset + 2 <= bytes.Length
      ensures r.Ok? ==> r.value == bytes[offset] as int + 0x100 * bytes[offset + 1] as int
    {
      UInt2At(bytes[..], offset);
      UIntAt(bytes[..], offset, 2)
    }

    function ReadU32(offset: nat): (r: Result<nat>)
      reads bytes
      ensures r.Ok? <==> offset + 4 <= bytes.Length
      ensures r.Ok? ==> r.value < 0x1_0000_0000
      ensures r.Ok? ==> forall k :: 0 <= k < 4 ==> (r.value / Pow256(k)) % 256 == bytes[offset + k]
    {
      UIntDigits(bytes[..], offset, 4);
      UIntAt(bytes[..], offset, 4)
    }

    /** readu64: the BigInt of the eight bytes, exact; the codec then passes
        it through Number(), which Layout.U64Of models. */
    function ReadU64(offset: nat): (r: Result<nat>)
      reads bytes
      ensures r.Ok? <==> offset + 8 <= bytes.Length
      ensures r.Ok? ==> r.value < 0x1_0000_0000_0000_0000
      ensures r.Ok? ==> forall k :: 0 <= k < 8 ==> (r.value / Pow256(k)) % 256 == bytes[offset + k]
    {
      UIntDigits(bytes[..], offset, 8);
      UIntAt(bytes[..], offset, 8)
    }

    function ReadSigned(offset: nat, n: nat): (r: Result<int>)
      reads bytes
      requires n > 0
      ensures r.Ok? <==> offset + n <= bytes.Length
      ensures r.Ok? ==> -(Pow256(n) / 2) <= r.value < Pow256(n) / 2
      ensures r.Ok? ==> LE(r.value, n) == bytes[offset..offset + n]
    {
      if offset + n <= bytes.Length then
        SignedBytes(bytes[..], offset, n);
        Ok(ToSigned(DigitsAt(bytes[..], offset, offset + n), n))
      else
        RangeError
    }

    function ReadI8(offset: nat): (r: Result<int>)
      reads bytes
      ensures r.Ok? <==> offset + 1 <= bytes.Length
      ensures r.Ok? ==> r.value == if bytes[offset] < 0x80 then bytes[offset] as int else bytes[offset] as int - 0x100
    {
      UIntDigits(bytes[..], offset, 1);
      ReadSigned(offset, 1)
    }

    function ReadI16(offset: nat): (r: Result<int>)
      reads bytes
      ensures r.Ok? <==> offset + 2 <= bytes.Length
      ensures r.Ok? ==> -0x8000 <= r.value < 0x8000
      ensures r.Ok? ==> LE(r.value, 2) == bytes[offset..offset + 2]
    {
      ReadSigned(offset, 2)
    }

    function ReadI32(offset: nat): (r: Result<int>)
      reads bytes
      ensures r.Ok? <==> offset + 4 <= bytes.Length
      ensures r.Ok? ==> -0x8000_0000 <= r.value < 0x8000_0000
      ensures r.Ok? ==> LE(r.value, 4) == bytes[offset..offset + 4]
    {
      ReadSigned(offset, 4)
    }

    function ReadI64(offset: nat): (r: Result<int>)
      reads bytes
      ensures r.Ok? <==> offset + 8 <= bytes.Length
      ensures r.Ok? ==> -0x8000_0000_0000_0000 <= r.value < 0x8000_0000_0000_0000
      ensures r.Ok? ==> LE(r.value, 8) == bytes[offset..offset + 8]
    {
      ReadSigned(offset, 8)
    }

    /** readf16: f16tof32 of the u16 at offset. */
    function ReadF16(offset: nat): (r: Result<Half.Float>)
      reads bytes
      ensures r.Ok? <==> offset + 2 <= bytes.Length
      ensures r.Ok? ==> r.value == Half.F16ToF32(bytes[offset] as int + 0x100 * bytes[offset + 1] as int)
    {
      var u :- ReadU16(offset);
      Ok(Half.F16ToF32(u))
    }

    function ReadF32(offset: nat): (r: Result<Half.Bits32>)
      reads bytes
      ensures r.Ok? <==> offset + 4 <= bytes.Length
      ensures r.Ok? ==> r.value < 0x1_0000_0000
      ensures r.Ok? ==> forall k :: 0 <= k < 4 ==> (r.value / Pow256(k)) % 256 == bytes[offset + k]
    {
      UIntDigits(bytes[..], offset, 4);
      UIntAt(bytes[..], offset, 4)
    }

    function ReadF64(offset: nat): (r: Result<Bits64>)
      reads bytes
      ensures r.Ok? <==> offset + 8 <= bytes.Length
      ensures r.Ok? ==> forall k :: 0 <= k < 8 ==> (r.value / Pow256(k)) % 256 == bytes[offset + k]
    {
      UIntDigits(bytes[..], offset, 8);
      UIntAt(bytes[..], offset, 8)
    }

    /** readutf8: reads length bytes one at a time (each read may fault)
        and decodes them. */
    method ReadUtf8(offset: nat, length: nat) returns (r: Result<string>)
      ensures r.Ok? <==> length == 0 || offset + length <= bytes.Length
      ensures r.Ok? ==> r.value == Utf8.Decode(if length == 0 then [] else bytes[offset..offset + length])
    {
      var utf8Arr: seq<Byte> := [];
      var i := 0;
      while i < length
        invariant 0 <= i <= length
        invariant i > 0 ==> offset + i <= bytes.Length && utf8Arr == bytes[offset..offset + i]
        invariant i == 0 ==> utf8Arr == []
      {
        var x :- ReadU8(offset + i);
        utf8Arr := utf8Arr + [x];
        i := i + 1;
      }
      r := Ok(Utf8.Decode(utf8Arr));
    }
  }
}
