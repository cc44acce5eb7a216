// Half-precision packing as the Buffer performs it. A float32 is handled
// as its bit pattern (an unsigned 32-bit number), a binary16 as its 16-bit
// pattern; binary16 is the IEEE 754-2008 interchange format of section 3.6
// (1 sign bit, 5 exponent bits with bias 15, 10 fraction bits), binary32
// has 8 exponent bits with bias 127 and 23 fraction bits. Bit fields are
// written with division and remainder by powers of two, which on these
// unsigned patterns is what the shifts and masks in the source compute.

module Half {
  import opened Arith

  /** A float32 bit pattern. */
  type Bits32 = x: int | 0 <= x < 0x1_0000_0000
  /** A binary16 bit pattern. */
  type Bits16 = x: int | 0 <= x < 0x1_0000

  /** The sign, biased exponent and fraction fields of a float32 pattern. */
  function Negative32(x: Bits32): bool { x >= 0x8000_0000 }
  function Field32(x: Bits32): nat { (x / 0x80_0000) % 0x100 }
  function Fraction32(x: Bits32): nat { x % 0x80_0000 }

  /** f32tof16: the binary16 pattern stored for the float32 pattern x.
      The mantissa is truncated, values below 2^-14 flush to a signed zero,
      values of 2^16 and above (and every NaN) become a signed infinity. */
  function F32ToF16(x: Bits32): (h: Bits16)
    ensures (h >= 0x8000) == Negative32(x)
  {
    var sign := if Negative32(x) then 0x8000 else 0;
    var field := Field32(x);
    if field < 113 then sign
    else if field > 142 then sign + 0x7c00
    else sign + (field - 112) * 0x400 + Fraction32(x) / 0x2000
  }

  /** A decoded binary16 (or binary32) pattern. The exponent is the biased
      exponent field, the fraction the raw fraction field. */
  datatype Float =
    | Zero(negative: bool)
    | Subnormal(negative: bool, fraction: nat)
    | Normal(negative: bool, exponent: nat, fraction: nat)
    | Infinity(negative: bool)
    | NaN
  {
    predicate Finite() { Zero? || Subnormal? || Normal? }
  }

  /** f16tof32: the number a binary16 pattern denotes, by class. */
  function F16ToF32(h: Bits16): (v: Float)
    ensures v.Subnormal? ==> 0 < v.fraction < 0x400
    ensures v.Normal? ==> 1 <= v.exponent <= 30 && v.fraction < 0x400
    ensures (v.Zero? || v.Subnormal? || v.Normal? || v.Infinity?) ==> v.negative == (h >= 0x8000)
  {
    var negative := h >= 0x8000;
    var exponent := (h / 0x400) % 0x20;
    var fraction := h % 0x400;
    if exponent == 0 then
      (if fraction == 0 then Zero(negative) else Subnormal(negative, fraction))
    else if exponent == 0x1f then
      (if fraction != 0 then NaN else Infinity(negative))
    else Normal(negative, exponent, fraction)
  }

  /** The class of a binary16 pattern is decided by its 15 magnitude bits. */
  lemma {:induction false} F16Classes(h: Bits16)
    ensures var v, low := F16ToF32(h), h % 0x8000;
      (v.Zero? <==> low == 0) && (v.Subnormal? <==> 0 < low < 0x400) &&
      (v.Normal? <==> 0x400 <= low < 0x7c00) && (v.Infinity? <==> low == 0x7c00) &&
      (v.NaN? <==> low > 0x7c00)
  {
    Split16(h);
    var e, f := (h / 0x400) % 0x20, h % 0x400;
    assert h % 0x8000 == e * 0x400 + f by {
      DivUnique(h, 0x8000, h / 0x8000, e * 0x400 + f);
    }
  }

  /** The classification of a float32 pattern, in the same terms. */
  function Classify32(x: Bits32): Float
  {
    var negative, field, fraction := Negative32(x), Field32(x), Fraction32(x);
    if field == 0 then
      (if fraction == 0 then Zero(negative) else Subnormal(negative, fraction))
    else if field == 0xff then
      (if fraction != 0 then NaN else Infinity(negative))
    else Normal(negative, field, fraction)
  }

  function Pow2(n: nat): (p: nat)
    ensures p >= 1
  {
    if n == 0 then 1 else 2 * Pow2(n - 1)
  }

  /** The normalisation of a subnormal binary16 fraction f, with biased
      float32 exponent e for a leading bit at position 10: f is doubled
      until its leading bit reaches position 10, lowering the exponent once
      per doubling. The result is the exponent and the 10 bits below the
      leading one. */
  function Normalize(f: nat, e: int): (r: (int, nat))
    requires 0 < f < 0x800
    ensures r.0 <= e && r.1 < 0x400
    ensures f * Pow2(e - r.0) == r.1 + 0x400
    ensures f < 0x400 ==> r.0 < e
    decreases 0x400 - f
  {
    if f >= 0x400 then (e, f - 0x400) else Normalize(2 * f, e - 1)
  }

  lemma {:induction false} Pow2Grows(k: nat)
    requires k >= 11
    ensures Pow2(k) >= 2048
  {
    if k > 11 {
      Pow2Grows(k - 1);
    }
  }

  /** A nonzero 10-bit fraction needs at most 10 doublings. */
  lemma {:induction false} NormalizeShifts(f: nat, e: int)
    requires 0 < f < 0x400
    ensures e - 10 <= Normalize(f, e).0
  {
    var r := Normalize(f, e);
    var k: nat := e - r.0;
    if k >= 11 {
      Pow2Grows(k);
      MulNonneg(f - 1, Pow2(k));
    }
  }

  function Sign32(negative: bool): nat { if negative then 0x8000_0000 else 0 }

  /** The float32 pattern of the number f16tof32 returns: every binary16
      value is exact in binary32. A half subnormal becomes a normal float32
      (see Normalize); NaN becomes the quiet NaN that a Float32Array
      stores. */
  function Widen(v: Float): Bits32
    requires v.Subnormal? ==> 0 < v.fraction < 0x400
    requires v.Normal? ==> 1 <= v.exponent <= 30 && v.fraction < 0x400
  {
    match v
    case Zero(negative) => Sign32(negative)
    case Subnormal(negative, f) =>
      NormalizeShifts(f, 113);
      var r := Normalize(f, 113);
      Sign32(negative) + r.0 * 0x80_0000 + r.1 * 0x2000
    case Normal(negative, e, f) => Sign32(negative) + (e + 112) * 0x80_0000 + f * 0x2000
    case Infinity(negative) => Sign32(negative) + 0x7f80_0000
    case NaN => 0x7fc0_0000
  }

  /** The float32 pattern read back from a binary16 field. */
  function HalfToSingle(h: Bits16): Bits32
  {
    Widen(F16ToF32(h))
  }

  /** A float32 after one trip through a binary16 field. */
  function Quantize(x: Bits32): Bits32
  {
    HalfToSingle(F32ToF16(x))
  }

  // ---- Exact values ----

  // Values are counted in units of 2^-149, the least positive float32:
  // every finite binary16 and binary32 number is a whole number of units.

  /** m with the given sign. */
  function Signed(negative: bool, m: int): int { if negative then -m else m }

  function Abs(x: int): nat { if x < 0 then -x else x }

  /** A binary16 subnormal step, 2^-24, is 2^125 units. */
  const SubnormalShift: nat := 125

  /** A finite binary16 in units: ±(1024 + f)·2^(e-25) for normals and
      ±f·2^-24 for subnormals, each times 2^149. */
  function HalfUnits(v: Float): int
    requires v.Finite()
  {
    match v
    case Zero(_) => 0
    case Subnormal(negative, f) => Signed(negative, f * Pow2(SubnormalShift))
    case Normal(negative, e, f) => Signed(negative, (0x400 + f) * Pow2(e + 124))
  }

  /** A finite binary32 in units: ±(2^23 + f)·2^(e-150) for normals and
      ±f·2^-149 for subnormals, each times 2^149. */
  function SingleUnits(v: Float): int
    requires v.Finite() && (v.Normal? ==> v.exponent >= 1)
  {
    match v
    case Zero(_) => 0
    case Subnormal(negative, f) => Signed(negative, f)
    case Normal(negative, e, f) => Signed(negative, (0x80_0000 + f) * Pow2(e - 1))
  }

  // ---- Bit fields ----

  /** The fields of a float32 pattern assembled from sign, exponent and fraction. */
  lemma {:induction false} Fields32(negative: bool, e: nat, m: nat)
    requires e < 0x100 && m < 0x80_0000
    ensures var x := Sign32(negative) + e * 0x80_0000 + m;
      x < 0x1_0000_0000 && Negative32(x) == negative && Field32(x) == e && Fraction32(x) == m
  {
    var x := Sign32(negative) + e * 0x80_0000 + m;
    var hi := (if negative then 0x100 else 0) + e;
    assert x == 0x80_0000 * hi + m;
    DivUnique(x, 0x80_0000, hi, m);
    DivUnique(hi, 0x100, if negative then 1 else 0, e);
  }

  function Sign16(negative: bool): nat { if negative then 0x8000 else 0 }

  /** The fields of a binary16 pattern assembled from sign, exponent and fraction. */
  lemma {:induction false} Fields16(negative: bool, e: nat, f: nat)
    requires e < 0x20 && f < 0x400
    ensures var h := Sign16(negative) + e * 0x400 + f;
      h < 0x1_0000 && (h >= 0x8000) == negative && (h / 0x400) % 0x20 == e && h % 0x400 == f
  {
    var h := Sign16(negative) + e * 0x400 + f;
    var hi := (if negative then 0x20 else 0) + e;
    assert h == 0x400 * hi + f;
    DivUnique(h, 0x400, hi, f);
    DivUnique(hi, 0x20, if negative then 1 else 0, e);
  }

  /** Every binary16 pattern is assembled from its own fields. */
  lemma {:induction false} Split16(h: Bits16)
    ensures h == Sign16(h >= 0x8000) + ((h / 0x400) % 0x20) * 0x400 + h % 0x400
  {
    var hi := h / 0x400;
    Split(h, 0x400);
    Split(hi, 0x20);
    DivDiv(h, 0x400, 0x20);
    assert h / 0x8000 == (if h >= 0x8000 then 1 else 0);
  }

  // ---- Packing, case by case ----

  /** A float32 whose exponent is below -14 packs to a signed zero. */
  lemma {:induction false} PackUnderflow(x: Bits32)
    requires Field32(x) < 113
    ensures F16ToF32(F32ToF16(x)) == Zero(Negative32(x))
  {
  }

  /** A float32 whose exponent is above 15 (infinities and NaNs included)
      packs to a signed infinity. */
  lemma {:induction false} PackOverflow(x: Bits32)
    requires Field32(x) > 142
    ensures F16ToF32(F32ToF16(x)) == Infinity(Negative32(x))
  {
  }

  /** In range, the exponent is rebiased and the fraction truncated to its
      top 10 bits. */
  lemma {:induction false} PackNormal(x: Bits32)
    requires 113 <= Field32(x) <= 142
    ensures F16ToF32(F32ToF16(x)) == Normal(Negative32(x), Field32(x) - 112, Fraction32(x) / 0x2000)
  {
    Fields16(Negative32(x), Field32(x) - 112, Fraction32(x) / 0x2000);
  }

  /** Packing never produces a subnormal or a NaN. */
  lemma {:induction false} PackClasses(x: Bits32)
    ensures var v := F16ToF32(F32ToF16(x)); !v.Subnormal? && !v.NaN?
  {
    if Field32(x) < 113 {
      PackUnderflow(x);
    } else if Field32(x) > 142 {
      PackOverflow(x);
    } else {
      PackNormal(x);
    }
  }

  // ---- Widening then packing ----

  /** A normal half survives widening and re-packing unchanged. */
  lemma {:induction false} RepackNormal(h: Bits16)
    requires F16ToF32(h).Normal?
    ensures F32ToF16(HalfToSingle(h)) == h
  {
    var v := F16ToF32(h);
    Fields32(v.negative, v.exponent + 112, v.fraction * 0x2000);
    DivUnique(v.fraction * 0x2000, 0x2000, v.fraction, 0);
    Split16(h);
  }

  /** A subnormal half comes back as the zero of its sign. */
  lemma {:induction false} RepackSubnormal(h: Bits16)
    requires F16ToF32(h).Subnormal?
    ensures F32ToF16(HalfToSingle(h)) == Sign16(h >= 0x8000)
  {
    var v := F16ToF32(h);
    NormalizeShifts(v.fraction, 113);
    var r := Normalize(v.fraction, 113);
    Fields32(v.negative, r.0, r.1 * 0x2000);
  }

  /** Zeros and infinities survive; every NaN comes back as +infinity. */
  lemma {:induction false} RepackSpecial(h: Bits16)
    ensures F16ToF32(h).Zero? || F16ToF32(h).Infinity? ==> F32ToF16(HalfToSingle(h)) == h
    ensures F16ToF32(h).NaN? ==> F32ToF16(HalfToSingle(h)) == 0x7c00
  {
    var v := F16ToF32(h);
    Split16(h);
    match v {
      case Zero(negative) => Fields32(negative, 0, 0);
      case Infinity(negative) => Fields32(negative, 0xff, 0);
      case NaN => Fields32(false, 0xff, 0x40_0000);
      case _ =>
    }
  }

  /** Re-encoding a decoded half field writes the bits it was read from:
      quantizing twice is quantizing once. */
  lemma {:induction false} QuantizeIdempotent(x: Bits32)
    ensures F32ToF16(Quantize(x)) == F32ToF16(x)
    ensures Quantize(Quantize(x)) == Quantize(x)
  {
    var h := F32ToF16(x);
    PackClasses(x);
    if F16ToF32(h).Normal? {
      RepackNormal(h);
    } else {
      RepackSpecial(h);
    }
  }

  // ---- Values ----

  lemma {:induction false} Pow2Add(a: nat, b: nat)
    ensures Pow2(a + b) == Pow2(a) * Pow2(b)
    decreases a
  {
    if a > 0 {
      Pow2Add(a - 1, b);
    }
  }

  /** A normal half widens to the normal float32 with the exponent rebiased
      and the fraction shifted up 13 bits, of the same value. */
  lemma {:induction false} WidenNormalExact(negative: bool, e: nat, f: nat)
    requires 1 <= e <= 30 && f < 0x400
    ensures Classify32(Widen(Normal(negative, e, f))) == Normal(negative, e + 112, f * 0x2000)
    ensures SingleUnits(Normal(negative, e + 112, f * 0x2000)) == HalfUnits(Normal(negative, e, f))
  {
    Fields32(negative, e + 112, f * 0x2000);
    Pow2Add(13, e + 111);
    Pow2Thirteen();
    var p := Pow2(e + 111);
    assert 0x80_0000 + f * 0x2000 == 0x2000 * (0x400 + f);
    ScaleRegroup(0x400 + f, 0x2000, p);
  }

  /** (a·c)·p == a·(c·p) */
  lemma {:induction false} ScaleRegroup(a: int, c: int, p: int)
    ensures (c * a) * p == a * (c * p)
  {
  }

  /** The value of a subnormal half is that of its normalisation. */
  lemma {:induction false} SubnormalUnits(negative: bool, f: nat, e: nat, m: nat, k: nat)
    requires 0 < f < 0x400 && m < 0x400 && k + e == 112
    requires f * Pow2(k) == m + 0x400
    ensures SingleUnits(Normal(negative, e + 1, m * 0x2000)) == HalfUnits(Subnormal(negative, f))
  {
    SubnormalMagnitude(f, k, e, m);
    SingleNormalUnits(negative, e + 1, m * 0x2000);
    HalfSubnormalUnits(negative, f);
  }

  lemma {:induction false} SingleNormalUnits(negative: bool, e: nat, m: nat)
    requires e >= 1
    ensures SingleUnits(Normal(negative, e, m)) == Signed(negative, (0x80_0000 + m) * Pow2(e - 1))
  {
  }

  lemma {:induction false} HalfSubnormalUnits(negative: bool, f: nat)
    ensures HalfUnits(Subnormal(negative, f)) == Signed(negative, f * Pow2(SubnormalShift))
  {
  }

  /** The magnitudes behind SubnormalUnits: f·2^k == 2^10 + m gives
      (2^23 + m·2^13)·2^e == f·2^125 when k + e == 112. */
  lemma {:induction false} SubnormalMagnitude(f: nat, k: nat, e: nat, m: nat)
    requires k + e + 13 == SubnormalShift && f * Pow2(k) == m + 0x400
    ensures (0x80_0000 + m * 0x2000) * Pow2(e) == f * Pow2(SubnormalShift)
  {
    Pow2Add(k, e);
    SubnormalScale(k + e);
    SubnormalAlgebra(f, Pow2(k), Pow2(e), m, Pow2(SubnormalShift));
  }

  /** The arithmetic behind SubnormalUnits, on plain numbers. */
  lemma {:induction false} SubnormalAlgebra(f: int, q: int, p: int, m: int, scale: int)
    requires f * q == m + 0x400 && scale == 0x2000 * (q * p)
    ensures (0x80_0000 + m * 0x2000) * p == f * scale
  {
    calc {
      (0x80_0000 + m * 0x2000) * p;
      0x2000 * ((m + 0x400) * p);
      0x2000 * ((f * q) * p);
      { ScaleRegroup(q, f, p); }
      0x2000 * (f * (q * p));
      f * scale;
    }
  }

  /** 2^13 · 2^112 == 2^125, the scale of a subnormal half in units. */
  lemma {:induction false} SubnormalScale(n: nat)
    requires n + 13 == SubnormalShift
    ensures 0x2000 * Pow2(n) == Pow2(SubnormalShift)
  {
    Pow2Add(13, n);
    Pow2Thirteen();
  }

  lemma {:induction false} Pow2Thirteen()
    ensures Pow2(13) == 0x2000
  {
  }

  lemma {:induction false} WidenSubnormalExact(negative: bool, f: nat)
    requires 0 < f < 0x400
    ensures Classify32(Widen(Subnormal(negative, f))).Normal?
    ensures Classify32(Widen(Subnormal(negative, f))).exponent >= 1
    ensures SingleUnits(Classify32(Widen(Subnormal(negative, f)))) == HalfUnits(Subnormal(negative, f))
  {
    NormalizeShifts(f, 113);
    var r := Normalize(f, 113);
    Fields32(negative, r.0, r.1 * 0x2000);
    SubnormalUnits(negative, f, r.0 - 1, r.1, 113 - r.0);
  }

  /** Widening is exact: the float32 read back from a finite binary16
      field has the value of the binary16. */
  lemma {:induction false} WidenExact(h: Bits16)
    requires F16ToF32(h).Finite()
    ensures var w := Classify32(HalfToSingle(h));
      w.Finite() && (w.Normal? ==> w.exponent >= 1) && SingleUnits(w) == HalfUnits(F16ToF32(h))
  {
    match F16ToF32(h) {
      case Zero(negative) => Fields32(negative, 0, 0);
      case Normal(negative, e, f) => WidenNormalExact(negative, e, f);
      case Subnormal(negative, f) => WidenSubnormalExact(negative, f);
    }
  }

  lemma {:induction false} MulLess(a: int, b: int, p: int)
    requires a < b && p > 0
    ensures a * p < b * p
  {
  }

  /** Truncation toward zero by less than 1/1024 of the magnitude: b lies
      between 0 and a. */
  predicate TruncatedFrom(a: int, b: int)
  {
    (if a < 0 then a <= b <= 0 else 0 <= b <= a) && 1024 * Abs(a - b) < Abs(a)
  }

  /** Zeroing the low 13 fraction bits of a normal float32 moves it toward
      zero by less than 1/1024 of its magnitude. */
  lemma {:induction false} TruncateNormal(negative: bool, e: nat, f: nat)
    requires 1 <= e < 0xff && f < 0x80_0000
    ensures TruncatedFrom(SingleUnits(Normal(negative, e, f)), SingleUnits(Normal(negative, e, f / 0x2000 * 0x2000)))
  {
    var t := f / 0x2000 * 0x2000;
    var p := Pow2(e - 1);
    assert 0 <= f - t < 0x2000;
    TruncateMagnitude(f, t, p);
  }

  lemma {:induction false} TruncateMagnitude(f: nat, t: nat, p: nat)
    requires t <= f < t + 0x2000 && p >= 1
    ensures var a, b := (0x80_0000 + f) * p, (0x80_0000 + t) * p;
      0 < a && 0 <= b <= a && 1024 * (a - b) < a
  {
    MulNonneg(f - t, p);
    MulLess(1024 * (f - t), 0x80_0000 + f, p);
    assert (0x80_0000 + f) * p - (0x80_0000 + t) * p == (f - t) * p;
    MulNonneg(0x80_0000 + t, p);
  }

  /** Within the binary16 range, a quantized float32 keeps sign and
      exponent and zeroes the low 13 fraction bits. */
  lemma {:induction false} QuantizeNormal(x: Bits32)
    requires 113 <= Field32(x) <= 142
    ensures Classify32(Quantize(x)) == Normal(Negative32(x), Field32(x), Fraction32(x) / 0x2000 * 0x2000)
  {
    var negative, e, f := Negative32(x), Field32(x), Fraction32(x);
    PackNormal(x);
    WidenNormalExact(negative, e - 112, f / 0x2000);
  }

  /** Within the binary16 range, packing truncates toward zero and loses
      less than one part in 1024 of the magnitude. */
  lemma {:induction false} QuantizeTruncates(x: Bits32)
    requires 113 <= Field32(x) <= 142
    ensures Classify32(x).Normal? && Classify32(Quantize(x)).Normal?
    ensures Classify32(Quantize(x)).exponent == Field32(x)
    ensures TruncatedFrom(SingleUnits(Classify32(x)), SingleUnits(Classify32(Quantize(x))))
  {
    QuantizeNormal(x);
    assert Classify32(x) == Normal(Negative32(x), Field32(x), Fraction32(x));
    TruncateNormal(Negative32(x), Field32(x), Fraction32(x));
  }
}
