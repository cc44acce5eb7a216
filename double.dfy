// Number(x) of a non-negative BigInt x: the nearest IEEE 754 binary64
// value, ties to the even significand. The codec applies it to every u64 it
// reads (ids and timestamps), so values above 2^53 come back rounded.

module Double {
  import opened Arith
  import Half

  /** 2^53: every integer below it is a double, the significand's range. */
  const TwoTo53: nat := 0x20_0000_0000_0000

  /** The number of low bits of v a double cannot hold: doubles between
      2^(52+k) and 2^(53+k) are the multiples of 2^k. */
  function Excess(v: nat): (k: nat)
    decreases v
  {
    if v < TwoTo53 then 0 else 1 + Excess(v / 2)
  }

  /** Number(v): v rounded to a multiple of 2^Excess(v), to nearest, ties to
      the even multiple. */
  function Nearest(v: nat): (r: nat)
  {
    var k := Excess(v);
    if k == 0 then v
    else
      var q, rem := v / Half.Pow2(k), v % Half.Pow2(k);
      if rem > Half.Pow2(k - 1) || (rem == Half.Pow2(k - 1) && q % 2 == 1)
      then (q + 1) * Half.Pow2(k)
      else q * Half.Pow2(k)
  }

  /** Excess(v) is the place of v's leading bit above the significand. */
  lemma {:induction false} ExcessBounds(v: nat)
    ensures v < TwoTo53 * Half.Pow2(Excess(v))
    ensures Excess(v) > 0 ==> TwoTo53 * Half.Pow2(Excess(v) - 1) <= v
    decreases v
  {
    if v >= TwoTo53 {
      var k := Excess(v / 2);
      ExcessBounds(v / 2);
      assert v < TwoTo53 * Half.Pow2(k + 1) by {
        assert v <= 2 * (v / 2) + 1;
        assert v / 2 + 1 <= TwoTo53 * Half.Pow2(k);
      }
      if k > 0 {
        assert TwoTo53 * Half.Pow2(k) == 2 * (TwoTo53 * Half.Pow2(k - 1));
      }
    }
  }

  /** One rounding step on abstract numbers: v == q * p + rem, rounded to
      m * p with m the nearer of q and q + 1 (the even one on a tie). */
  lemma {:induction false} RoundStep(v: nat, p: nat, half: nat, q: nat, rem: nat, m: nat)
    requires half >= 1 && p == 2 * half
    requires v == p * q + rem && rem < p && q < TwoTo53
    requires m == if rem > half || (rem == half && q % 2 == 1) then q + 1 else q
    ensures (m * p) / p == m && m <= TwoTo53
    ensures 2 * (m * p - v) <= p && 2 * (v - m * p) <= p
    ensures 2 * (m * p - v) == p || 2 * (v - m * p) == p ==> m % 2 == 0
  {
    DivUnique(m * p, p, m, 0);
    if m == q + 1 {
      assert m * p == q * p + p;
    }
  }

  /** Number(v) is a double (a significand of at most 53 bits times
      2^Excess(v)), at most half a step from v, and on a tie the even
      significand. */
  lemma {:induction false} NearestRounds(v: nat)
    ensures var p, m := Half.Pow2(Excess(v)), Nearest(v) / Half.Pow2(Excess(v));
      && Nearest(v) == m * p && m <= TwoTo53
      && 2 * (Nearest(v) - v) <= p && 2 * (v - Nearest(v)) <= p
      && (2 * (Nearest(v) - v) == p || 2 * (v - Nearest(v)) == p ==> m % 2 == 0)
  {
    var k := Excess(v);
    var p := Half.Pow2(k);
    ExcessBounds(v);
    if k == 0 {
      DivUnique(v, 1, v, 0);
    } else {
      var half := Half.Pow2(k - 1);
      assert p == 2 * half;
      var q, rem := v / p, v % p;
      Split(v, p);
      assert q < TwoTo53 by {
        if q >= TwoTo53 {
          MulNonneg(p, q - TwoTo53);
        }
      }
      var m := if rem > half || (rem == half && q % 2 == 1) then q + 1 else q;
      assert Nearest(v) == m * p;
      RoundStep(v, p, half, q, rem, m);
    }
  }

  /** The largest u64 rounds up to 2^64; 2^53 + 1 is a tie and rounds to the
      even 2^53. */
  lemma {:induction false} NearestExamples()
    ensures Nearest(0xFFFF_FFFF_FFFF_FFFF) == 0x1_0000_0000_0000_0000
    ensures Nearest(TwoTo53 + 1) == TwoTo53
  {
    assert Excess(0xFFFF_FFFF_FFFF_FFFF) == 11;
    assert Half.Pow2(11) == 2048 && Half.Pow2(10) == 1024;
    assert Excess(TwoTo53 + 1) == 1;
  }
}
