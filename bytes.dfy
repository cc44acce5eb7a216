// Byte strings, little-endian integers and in-place splicing of byte runs.

module Bytes {
  import opened Results
  import opened Arith

  /** An octet as stored in an ArrayBuffer. */
  type Byte = x: int | 0 <= x < 256

  function Pow256(n: nat): (p: nat)
    ensures p >= 1
  {
    if n == 0 then 1 else 256 * Pow256(n - 1)
  }

  /** The n little-endian bytes that a DataView setUintN/setIntN (or
      setBigUint64 after BigInt.asUintN) stores for the number v: v is taken
      modulo 256^n, so negative values come out in two's complement. */
  function LE(v: int, n: nat): (r: seq<Byte>)
    ensures |r| == n
  {
    seq(n, k requires 0 <= k < n => (v / Pow256(k)) % 256)
  }

  /** The first stored byte is v modulo 256; the rest store v / 256. */
  lemma {:induction false} LETail(v: int, n: nat)
    requires n > 0
    ensures LE(v, n) == [v % 256] + LE(v / 256, n - 1)
  {
    forall k | 0 <= k < n
      ensures LE(v, n)[k] == ([v % 256] + LE(v / 256, n - 1))[k]
    {
      if k > 0 {
        DivDiv(v, 256, Pow256(k - 1));
      }
    }
  }

  /** The unsigned number held by little-endian bytes (getUintN). */
  function FromLE(s: seq<Byte>): (v: nat)
    ensures v < Pow256(|s|)
  {
    if s == [] then 0 else s[0] + 256 * FromLE(s[1..])
  }

  /** The signed reading of an n-byte unsigned value (getIntN). */
  function ToSigned(u: int, n: nat): (r: int)
    ensures n > 0 && 0 <= u < Pow256(n) ==> -(Pow256(n) / 2) <= r < Pow256(n) / 2
    ensures r == u || r == u - Pow256(n)
  {
    Pow256Even(n);
    if n > 0 && u >= Pow256(n) / 2 then u - Pow256(n) else u
  }

  /** The widths the codec uses. */
  lemma {:induction false} Pow256Values()
    ensures Pow256(1) == 0x100 && Pow256(2) == 0x1_0000
    ensures Pow256(4) == 0x1_0000_0000 && Pow256(8) == 0x1_0000_0000_0000_0000
  {
    assert Pow256(2) == 0x1_0000;
    assert Pow256(4) == 0x1_0000_0000 by {
      assert Pow256(3) == 0x100_0000;
    }
    assert Pow256(8) == 0x1_0000_0000_0000_0000 by {
      assert Pow256(5) == 0x100_0000_0000;
      assert Pow256(6) == 0x1_0000_0000_0000;
      assert Pow256(7) == 0x100_0000_0000_0000;
    }
  }

  /** A value that fits in n bytes reads back unchanged. */
  lemma {:induction false} ReadStored(s: seq<Byte>, off: nat, v: int, n: nat)
    requires At(s, off, LE(v, n)) && 0 <= v < Pow256(n)
    ensures UIntAt(s, off, n) == Ok(v)
  {
    DigitsOfLE(s, off, off + n, n, v);
  }

  /** ReadStored at each width the Buffer uses, the bound written out. */
  lemma {:induction false} Read1(s: seq<Byte>, off: nat, v: int)
    requires At(s, off, LE(v, 1)) && 0 <= v < 0x100
    ensures UIntAt(s, off, 1) == Ok(v) && s[off] == v
  {
    Pow256Values();
    ReadStored(s, off, v, 1);
    DigitsAt1(s, off);
  }

  lemma {:induction false} Read2(s: seq<Byte>, off: nat, v: int)
    requires At(s, off, LE(v, 2)) && 0 <= v < 0x1_0000
    ensures UIntAt(s, off, 2) == Ok(v) && DigitsAt(s, off, off + 2) == v
  {
    Pow256Values();
    ReadStored(s, off, v, 2);
  }

  lemma {:induction false} Read4(s: seq<Byte>, off: nat, v: int)
    requires At(s, off, LE(v, 4)) && 0 <= v < 0x1_0000_0000
    ensures UIntAt(s, off, 4) == Ok(v) && DigitsAt(s, off, off + 4) == v
  {
    Pow256Values();
    ReadStored(s, off, v, 4);
  }

  lemma {:induction false} Read8(s: seq<Byte>, off: nat, v: int)
    requires At(s, off, LE(v, 8)) && 0 <= v < 0x1_0000_0000_0000_0000
    ensures UIntAt(s, off, 8) == Ok(v) && DigitsAt(s, off, off + 8) == v
  {
    Pow256Values();
    ReadStored(s, off, v, 8);
  }

  lemma {:induction false} Pow256Even(n: nat)
    ensures n > 0 ==> Pow256(n) % 2 == 0
  {
  }

  /** Storing v or v plus any multiple of 256^n gives the same bytes. */
  lemma {:induction false} LEMod(v: int, n: nat)
    ensures LE(v, n) == LE(v % Pow256(n), n)
    decreases n
  {
    if n > 0 {
      LETail(v, n);
      LETail(v % Pow256(n), n);
      DivDiv(v, 256, Pow256(n - 1));
      LEMod(v / 256, n - 1);
    }
  }

  /** An n-byte value in range reads back as itself. */
  lemma {:induction false} FromLEofLE(v: int, n: nat)
    requires 0 <= v < Pow256(n)
    ensures FromLE(LE(v, n)) == v
  {
    if n > 0 {
      LETail(v, n);
      assert LE(v, n)[1..] == LE(v / 256, n - 1);
      FromLEofLE(v / 256, n - 1);
    }
  }

  /** Any number stored in n bytes reads back modulo 256^n. */
  lemma {:induction false} ReadBackMod(v: int, n: nat)
    ensures FromLE(LE(v, n)) == v % Pow256(n)
  {
    LEMod(v, n);
    FromLEofLE(v % Pow256(n), n);
  }

  /** A signed value within the n-byte two's-complement range reads back
      (through getIntN) as itself. */
  lemma {:induction false} ReadBackSigned(v: int, n: nat)
    requires n > 0 && -(Pow256(n) / 2) <= v < Pow256(n) / 2
    ensures ToSigned(FromLE(LE(v, n)), n) == v
  {
    ReadBackMod(v, n);
    SignedMod(v, n);
  }

  /** Within the n-byte two's-complement range, v modulo 256^n read as a
      signed value is v. */
  lemma {:induction false} SignedMod(v: int, n: nat)
    requires n > 0 && -(Pow256(n) / 2) <= v < Pow256(n) / 2
    ensures ToSigned(v % Pow256(n), n) == v
  {
    assert Pow256(n) == 256 * Pow256(n - 1);
    if v < 0 {
      DivUnique(v, Pow256(n), -1, v + Pow256(n));
    } else {
      DivUnique(v, Pow256(n), 0, v);
    }
  }

  /** The byte string s with the run d written over it at offset off;
      everything outside [off, off + |d|) is left as it was. */
  function Splice(s: seq<Byte>, off: nat, d: seq<Byte>): (r: seq<Byte>)
    requires off + |d| <= |s|
    ensures |r| == |s|
  {
    s[..off] + d + s[off + |d|..]
  }

  /** A splice puts d at [off, off + |d|) and leaves every other byte as it
      was. */
  lemma {:induction false} SpliceIndex(s: seq<Byte>, off: nat, d: seq<Byte>)
    requires off + |d| <= |s|
    ensures forall i :: off <= i < off + |d| ==> Splice(s, off, d)[i] == d[i - off]
    ensures forall i :: 0 <= i < |s| && !(off <= i < off + |d|) ==> Splice(s, off, d)[i] == s[i]
  {
  }

  /** s holds the run d at offset off. */
  predicate At(s: seq<Byte>, off: nat, d: seq<Byte>)
  {
    off + |d| <= |s| && forall i :: 0 <= i < |d| ==> s[off + i] == d[i]
  }

  /** The n bytes of s from off (the slice s[off..off + n], written as a
      sequence of elements). */
  function Sub(s: seq<Byte>, off: nat, n: nat): (r: seq<Byte>)
    requires off + n <= |s|
    ensures |r| == n && forall i {:trigger r[i]} :: 0 <= i < n ==> r[i] == s[off + i]
  {
    seq(n, i requires 0 <= i < n => s[off + i])
  }

  lemma {:induction false} SubSlice(s: seq<Byte>, off: nat, n: nat)
    requires off + n <= |s|
    ensures Sub(s, off, n) == s[off..off + n]
  {
  }

  /** A run at off is the bytes of s from off. */
  lemma {:induction false} AtSub(s: seq<Byte>, off: nat, d: seq<Byte>)
    requires off + |d| <= |s|
    ensures At(s, off, d) <==> Sub(s, off, |d|) == d
  {
  }

  /** Writing a then b right after it is writing a + b. */
  lemma {:induction false} SpliceSplice(s: seq<Byte>, off: nat, a: seq<Byte>, b: seq<Byte>)
    requires off + |a| + |b| <= |s|
    ensures Splice(Splice(s, off, a), off + |a|, b) == Splice(s, off, a + b)
  {
    var l, r := Splice(Splice(s, off, a), off + |a|, b), Splice(s, off, a + b);
    SpliceIndex(s, off, a);
    SpliceIndex(Splice(s, off, a), off + |a|, b);
    SpliceIndex(s, off, a + b);
    assert forall i | 0 <= i < |s| :: l[i] == r[i];
  }

  /** A splice leaves its run in place. */
  lemma {:induction false} SpliceAt(s: seq<Byte>, off: nat, d: seq<Byte>)
    requires off + |d| <= |s|
    ensures At(Splice(s, off, d), off, d)
  {
    SpliceIndex(s, off, d);
  }

  /** A run at off splits into its two halves. */
  lemma {:induction false} AtConcat(s: seq<Byte>, off: nat, a: seq<Byte>, b: seq<Byte>)
    ensures At(s, off, a + b) <==> At(s, off, a) && At(s, off + |a|, b)
  {
    if At(s, off, a + b) {
      forall i | 0 <= i < |a| ensures s[off + i] == a[i] {
        assert (a + b)[i] == a[i];
      }
      forall i | 0 <= i < |b| ensures s[off + |a| + i] == b[i] {
        assert (a + b)[|a| + i] == b[i];
      }
    }
    if At(s, off, a) && At(s, off + |a|, b) {
      forall i | 0 <= i < |a + b| ensures s[off + i] == (a + b)[i] {
        if i >= |a| {
          assert s[off + |a| + (i - |a|)] == b[i - |a|];
        }
      }
    }
  }

  /** The whole of s is a run at 0. */
  lemma {:induction false} AtWhole(s: seq<Byte>)
    ensures At(s, 0, s)
  {
  }

  /** The unsigned n-byte read at off (a DataView getUintN): a RangeError
      when the n bytes do not all lie inside s. */
  function UIntAt(s: seq<Byte>, off: nat, n: nat): (r: Result<nat>)
    ensures r.Ok? <==> off + n <= |s|
    ensures r.Ok? ==> r.value < Pow256(n)
  {
    if off + n <= |s| then Ok(DigitsAt(s, off, off + n)) else RangeError
  }

  /** The value of the bytes in [lo, hi), least significant first. */
  function DigitsAt(s: seq<Byte>, lo: nat, hi: nat): (v: nat)
    requires lo <= hi <= |s|
    ensures v < Pow256(hi - lo)
    decreases hi - lo
  {
    if lo == hi then 0 else s[lo] + 256 * DigitsAt(s, lo + 1, hi)
  }

  /** Reading in place is reading the slice. */
  /** A one-byte group is its byte. */
  lemma {:induction false} DigitsAt1(s: seq<Byte>, off: nat)
    requires off + 1 <= |s|
    ensures DigitsAt(s, off, off + 1) == s[off]
  {
    assert DigitsAt(s, off + 1, off + 1) == 0;
  }

  /** A two-byte read is the low byte plus 256 times the high byte. */
  lemma {:induction false} UInt2At(s: seq<Byte>, off: nat)
    ensures UIntAt(s, off, 2).Ok? ==> UIntAt(s, off, 2).value == s[off] as int + 0x100 * s[off + 1] as int < 0x1_0000
  {
    if off + 2 <= |s| {
      DigitsAt1(s, off + 1);
    }
  }

  lemma {:induction false} DigitsSlice(s: seq<Byte>, lo: nat, hi: nat)
    requires lo <= hi <= |s|
    ensures DigitsAt(s, lo, hi) == FromLE(s[lo..hi])
    decreases hi - lo
  {
    if lo < hi {
      DigitsSlice(s, lo + 1, hi);
      assert s[lo..hi][1..] == s[lo + 1..hi];
    }
  }

  /** Byte k of a successful read is digit k of the value read. */
  lemma {:induction false} UIntDigits(s: seq<Byte>, off: nat, n: nat)
    ensures UIntAt(s, off, n).Ok? ==>
      forall k :: 0 <= k < n ==> (UIntAt(s, off, n).value / Pow256(k)) % 256 == s[off + k]
  {
    if off + n <= |s| {
      DigitsSlice(s, off, off + n);
      FromLEDigits(s[off..off + n]);
    }
  }

  /** The two's complement reading of n stored bytes is the number whose
      n little-endian bytes (as setIntN stores them) are those bytes. */
  lemma {:induction false} SignedBytes(s: seq<Byte>, off: nat, n: nat)
    requires n > 0 && off + n <= |s|
    ensures LE(ToSigned(DigitsAt(s, off, off + n), n), n) == s[off..off + n]
  {
    var u := DigitsAt(s, off, off + n);
    var v := ToSigned(u, n);
    DivUnique(v, Pow256(n), if v == u then 0 else -1, u);
    LEMod(v, n);
    DigitsSlice(s, off, off + n);
    LEofFromLE(s[off..off + n]);
  }

  /** Storing the value of some little-endian bytes gives those bytes back. */
  lemma {:induction false} LEofFromLE(s: seq<Byte>)
    ensures LE(FromLE(s), |s|) == s
    decreases |s|
  {
    if s != [] {
      var f := FromLE(s[1..]);
      DivUnique(s[0] + 256 * f, 256, f, s[0]);
      LEofFromLE(s[1..]);
      LETail(FromLE(s), |s|);
    }
  }

  /** Byte k of s is digit k of FromLE(s) in base 256. */
  lemma {:induction false} FromLEDigits(s: seq<Byte>)
    ensures forall k :: 0 <= k < |s| ==> (FromLE(s) / Pow256(k)) % 256 == s[k]
  {
    forall k | 0 <= k < |s|
      ensures (FromLE(s) / Pow256(k)) % 256 == s[k]
    {
      LEofFromLE(s);
      assert LE(FromLE(s), |s|)[k] == (FromLE(s) / Pow256(k)) % 256;
    }
  }

  /** Appending one byte to a spliced run extends the run. */
  lemma {:induction false} SpliceByte(s: seq<Byte>, off: nat, pre: seq<Byte>, x: Byte)
    requires off + |pre| + 1 <= |s|
    ensures Splice(Splice(s, off, pre), off + |pre|, LE(x, 1)) == Splice(s, off, pre + [x])
  {
    LEOne(x);
    SpliceSplice(s, off, pre, [x]);
  }

  /** One step of a byte-by-byte copy of d: if cur holds the first i bytes
      of d spliced at off, storing byte i next to them holds the first i + 1. */
  lemma {:induction false} SpliceStep(s: seq<Byte>, off: nat, d: seq<Byte>, i: nat, cur: seq<Byte>, next: seq<Byte>)
    requires i < |d| && off + |d| <= |s|
    requires cur == Splice(s, off, d[..i])
    requires next == Splice(cur, off + i, LE(d[i], 1))
    ensures next == Splice(s, off, d[..i + 1])
  {
    SpliceByte(s, off, d[..i], d[i]);
    assert d[..i] + [d[i]] == d[..i + 1];
  }

  /** Splicing in nothing changes nothing. */
  lemma {:induction false} SpliceNil(s: seq<Byte>, off: nat)
    requires off <= |s|
    ensures Splice(s, off, []) == s
  {
    assert s[..off] + [] + s[off..] == s;
  }

  /** A single byte is stored as itself. */
  lemma {:induction false} LEOne(x: Byte)
    ensures LE(x, 1) == [x]
  {
    DivUnique(x, 256, 0, x);
    assert LE(x, 1)[0] == x;
  }

  /** Reading n bytes where LE(v, n) was stored gives v modulo 256^n. */
  lemma {:induction false} ReadAfterWrite(s: seq<Byte>, off: nat, v: int, n: nat)
    requires At(s, off, LE(v, n))
    ensures UIntAt(s, off, n) == Ok(v % Pow256(n))
  {
    LEMod(v, n);
    ReadStored(s, off, v % Pow256(n), n);
  }

  /** The bytes in [lo, lo + n) hold LE(v, n) for a v that fits: their
      value is v. */
  lemma {:induction false} DigitsOfLE(s: seq<Byte>, lo: nat, hi: nat, n: nat, v: int)
    requires hi == lo + n && 0 <= v < Pow256(n) && At(s, lo, LE(v, n))
    ensures DigitsAt(s, lo, hi) == v
    decreases n
  {
    if n > 0 {
      LETail(v, n);
      AtConcat(s, lo, [v % 256], LE(v / 256, n - 1));
      assert s[lo] == v % 256 by {
        assert s[lo + 0] == [v % 256][0];
      }
      DigitsOfLE(s, lo + 1, hi, n - 1, v / 256);
    }
  }

  /** A write followed by a read of the same width at the same offset
      returns the value modulo 256^n. */
  lemma {:induction false} WriteThenRead(s: seq<Byte>, off: nat, v: int, n: nat)
    requires off + n <= |s|
    ensures UIntAt(Splice(s, off, LE(v, n)), off, n) == Ok(v % Pow256(n))
  {
    SpliceAt(s, off, LE(v, n));
    ReadAfterWrite(Splice(s, off, LE(v, n)), off, v, n);
  }

  /** The same for signed values within the n-byte two's-complement range. */
  lemma {:induction false} WriteThenReadSigned(s: seq<Byte>, off: nat, v: int, n: nat)
    requires off + n <= |s| && n > 0 && -(Pow256(n) / 2) <= v < Pow256(n) / 2
    ensures var r := UIntAt(Splice(s, off, LE(v, n)), off, n); r.Ok? && ToSigned(r.value, n) == v
  {
    SpliceAt(s, off, LE(v, n));
    ReadAfterWrite(Splice(s, off, LE(v, n)), off, v, n);
    SignedMod(v, n);
  }

  /** The index an ArrayBuffer.slice argument denotes: negative counts
      from the end, and the result is clamped to [0, len]. */
  function RelIndex(i: int, len: nat): (r: nat)
    ensures r <= len
    ensures i >= 0 ==> r == if i < len then i else len
    ensures i < 0 ==> r == if len + i > 0 then len + i else 0
  {
    if i < 0 then (if len + i > 0 then len + i else 0)
    else if i < len then i else len
  }

  /** ArrayBuffer.prototype.slice(start, end): never faults. */
  function SliceRange(s: seq<Byte>, start: int, end: int): (r: seq<Byte>)
    ensures |r| <= |s|
    ensures 0 <= start <= end <= |s| ==> r == Sub(s, start, end - start)
    ensures 0 <= start <= |s| <= end ==> r == Sub(s, start, |s| - start)
    ensures 0 <= end <= start ==> r == []
  {
    var first, final := RelIndex(start, |s|), RelIndex(end, |s|);
    if final <= first then [] else Sub(s, first, final - first)
  }

  /** Byte strings back to back. */
  function Join(parts: seq<seq<Byte>>): (r: seq<Byte>)
    decreases |parts|
  {
    if parts == [] then [] else Join(parts[..|parts| - 1]) + parts[|parts| - 1]
  }

  lemma {:induction false} JoinSnoc(parts: seq<seq<Byte>>, x: seq<Byte>)
    ensures Join(parts + [x]) == Join(parts) + x
  {
    assert (parts + [x])[..|parts|] == parts;
  }

  /** Join, split after its first part. */
  lemma {:induction false} JoinFront(parts: seq<seq<Byte>>)
    requires parts != []
    ensures Join(parts) == parts[0] + Join(parts[1..])
    decreases |parts|
  {
    var n := |parts|;
    if n == 1 {
      assert parts[1..] == [];
      assert parts[..0] == [];
    } else {
      var init := parts[..n - 1];
      JoinFront(init);
      assert parts[1..][..n - 2] == init[1..];
      assert init[0] == parts[0];
      calc {
        Join(parts);
        Join(init) + parts[n - 1];
        parts[0] + Join(init[1..]) + parts[n - 1];
        parts[0] + (Join(parts[1..][..n - 2]) + parts[1..][n - 2]);
        parts[0] + Join(parts[1..]);
      }
    }
  }

  /** Join of one more part of parts. */
  lemma {:induction false} JoinPrefix(parts: seq<seq<Byte>>, i: nat)
    requires i < |parts|
    ensures Join(parts[..i + 1]) == Join(parts[..i]) + parts[i]
  {
    assert parts[..i + 1][..i] == parts[..i];
  }

  /** A prefix of the parts joins to no more bytes than all of them. */
  lemma {:induction false} JoinPrefixLength(parts: seq<seq<Byte>>, i: nat)
    requires i <= |parts|
    ensures |Join(parts[..i])| <= |Join(parts)|
    decreases |parts|
  {
    if i < |parts| {
      var init := parts[..|parts| - 1];
      assert init[..i] == parts[..i];
      JoinPrefixLength(init, i);
    } else {
      assert parts[..i] == parts;
    }
  }

  /** Writing b after a's place and then a is writing a + b. */
  lemma {:induction false} SpliceBefore(s: seq<Byte>, off: nat, a: seq<Byte>, b: seq<Byte>)
    requires off + |a| + |b| <= |s|
    ensures Splice(Splice(s, off + |a|, b), off, a) == Splice(s, off, a + b)
  {
    var l, r := Splice(Splice(s, off + |a|, b), off, a), Splice(s, off, a + b);
    SpliceIndex(s, off + |a|, b);
    SpliceIndex(Splice(s, off + |a|, b), off, a);
    SpliceIndex(s, off, a + b);
    assert forall i | 0 <= i < |s| :: l[i] == r[i];
  }

  /** A splice over the whole of s replaces it. */
  lemma {:induction false} SpliceWhole(s: seq<Byte>, d: seq<Byte>)
    requires |d| == |s|
    ensures Splice(s, 0, d) == d
  {
    assert s[..0] + d + s[|d|..] == d;
  }

  /** SpliceSplice with the second offset given as q, the place where a
      ends. */
  lemma {:induction false} SpliceNext(s: seq<Byte>, off: nat, a: seq<Byte>, q: nat, b: seq<Byte>)
    requires q == off + |a| && q + |b| <= |s|
    ensures Splice(Splice(s, off, a), q, b) == Splice(s, off, a + b)
  {
    SpliceSplice(s, off, a, b);
  }

  /** Concatenation regrouped. */
  lemma {:induction false} Regroup(a: seq<Byte>, b: seq<Byte>, c: seq<Byte>, bc: seq<Byte>)
    requires bc == b + c
    ensures a + b + c == a + bc
  {
  }
}

