// UTF-8 as TextEncoder and TextDecoder apply it: the encoding of
// RFC 3629, section 3, and the WHATWG Encoding Standard's UTF-8 decoder
// with replacement (U+FFFD) error handling and its leading-BOM removal.
// Strings are sequences of Unicode scalar values.

module Utf8 {
  import opened Bytes

  const Replacement: char := '\U{FFFD}'
  const Bom: char := '\U{FEFF}'

  /** The UTF-8 bytes of one scalar value. */
  function EncodeChar(c: char): (r: seq<Byte>)
    ensures 1 <= |r| <= 4
    ensures |r| == 1 <==> c as int < 0x80
    ensures |r| == 2 <==> 0x80 <= c as int < 0x800
    ensures |r| == 4 <==> 0x1_0000 <= c as int
  {
    var v := c as int;
    if v < 0x80 then [v]
    else if v < 0x800 then [0xC0 + v / 0x40, 0x80 + v % 0x40]
    else if v < 0x1_0000 then [0xE0 + v / 0x1000, 0x80 + (v / 0x40) % 0x40, 0x80 + v % 0x40]
    else [0xF0 + v / 0x4_0000, 0x80 + (v / 0x1000) % 0x40, 0x80 + (v / 0x40) % 0x40, 0x80 + v % 0x40]
  }

  /** TextEncoder.encode. */
  function Encode(s: string): (r: seq<Byte>)
    ensures |s| <= |r| <= 4 * |s|
  {
    if s == [] then [] else EncodeChar(s[0]) + Encode(s[1..])
  }

  /** The length of s as JavaScript counts it (String.prototype.length):
      characters outside the Basic Multilingual Plane take two UTF-16 units. */
  function Utf16Length(s: string): (n: nat)
    ensures |s| <= n <= 2 * |s|
  {
    if s == [] then 0 else (if s[0] as int >= 0x1_0000 then 2 else 1) + Utf16Length(s[1..])
  }

  /** The decoder's variables between bytes: how many continuation bytes
      the current sequence needs and has seen, the code point so far, and
      the range the next byte must lie in. */
  datatype State = State(needed: nat, seen: nat, codePoint: nat, lower: int, upper: int)

  const Initial := State(0, 0, 0, 0x80, 0xBF)

  function ScalarToChar(v: nat): char
  {
    if v < 0xD800 || 0xE000 <= v < 0x11_0000 then v as char else Replacement
  }

  /** The output of the UTF-8 decoder run from byte i in state st. A byte
      outside the expected continuation range ends the sequence with U+FFFD
      and is then processed again from the initial state. */
  function DecodeFrom(b: seq<Byte>, i: nat, st: State): string
    requires i <= |b|
    decreases |b| - i, st.needed
  {
    if i == |b| then
      (if st.needed != 0 then [Replacement] else [])
    else
      var x := b[i];
      if st.needed == 0 then
        if x <= 0x7F then [x as char] + DecodeFrom(b, i + 1, Initial)
        else if 0xC2 <= x <= 0xDF then
          DecodeFrom(b, i + 1, State(1, 0, x - 0xC0, 0x80, 0xBF))
        else if 0xE0 <= x <= 0xEF then
          DecodeFrom(b, i + 1, State(2, 0, x - 0xE0, if x == 0xE0 then 0xA0 else 0x80, if x == 0xED then 0x9F else 0xBF))
        else if 0xF0 <= x <= 0xF4 then
          DecodeFrom(b, i + 1, State(3, 0, x - 0xF0, if x == 0xF0 then 0x90 else 0x80, if x == 0xF4 then 0x8F else 0xBF))
        else [Replacement] + DecodeFrom(b, i + 1, Initial)
      else if !(st.lower <= x <= st.upper) then
        [Replacement] + DecodeFrom(b, i, Initial)
      else
        var cp := st.codePoint * 0x40 + x % 0x40;
        if st.seen + 1 == st.needed then [ScalarToChar(cp)] + DecodeFrom(b, i + 1, Initial)
        else DecodeFrom(b, i + 1, State(st.needed, st.seen + 1, cp, 0x80, 0xBF))
  }

  /** TextDecoder.decode with the default options: replacement on error,
      and a leading byte order mark is dropped. */
  function Decode(b: seq<Byte>): string
  {
    StripBom(DecodeFrom(b, 0, Initial))
  }

  /** A string without its leading U+FEFF, if it has one. */
  function StripBom(s: string): string
  {
    if |s| > 0 && s[0] == Bom then s[1..] else s
  }

  // ---- Round trip ----

  lemma {:induction false} DecodeTwo(b: seq<Byte>, i: nat, v: int)
    requires 0x80 <= v < 0x800 && i + 2 <= |b|
    requires b[i] == 0xC0 + v / 0x40 && b[i + 1] == 0x80 + v % 0x40
    ensures DecodeFrom(b, i, Initial) == [v as char] + DecodeFrom(b, i + 2, Initial)
  {
    assert DecodeFrom(b, i, Initial) == DecodeFrom(b, i + 1, State(1, 0, v / 0x40, 0x80, 0xBF));
  }

  lemma {:induction false} Digits3(v: int)
    requires 0x800 <= v < 0x1_0000 && !(0xD800 <= v < 0xE000)
    ensures ((v / 0x1000) * 0x40 + (v / 0x40) % 0x40) * 0x40 + v % 0x40 == v
    ensures v / 0x1000 < 0x10
    ensures v / 0x1000 == 0 ==> (v / 0x40) % 0x40 >= 0x20
    ensures v / 0x1000 == 13 ==> (v / 0x40) % 0x40 < 0x20
  {
  }

  lemma {:induction false} Steps3(b: seq<Byte>, i: nat, d0: nat, d1: nat, d2: nat)
    requires d0 < 0x10 && d1 < 0x40 && d2 < 0x40 && i + 3 <= |b|
    requires b[i] == 0xE0 + d0 && b[i + 1] == 0x80 + d1 && b[i + 2] == 0x80 + d2
    requires d0 == 0 ==> d1 >= 0x20
    requires d0 == 13 ==> d1 < 0x20
    ensures DecodeFrom(b, i, Initial) == [ScalarToChar((d0 * 0x40 + d1) * 0x40 + d2)] + DecodeFrom(b, i + 3, Initial)
  {
    var st1 := State(2, 0, d0, if d0 == 0 then 0xA0 else 0x80, if d0 == 13 then 0x9F else 0xBF);
    assert DecodeFrom(b, i, Initial) == DecodeFrom(b, i + 1, st1);
    assert DecodeFrom(b, i + 1, st1) == DecodeFrom(b, i + 2, State(2, 1, d0 * 0x40 + d1, 0x80, 0xBF));
  }

  lemma {:induction false} DecodeThree(b: seq<Byte>, i: nat, v: int)
    requires 0x800 <= v < 0x1_0000 && !(0xD800 <= v < 0xE000) && i + 3 <= |b|
    requires b[i] == 0xE0 + v / 0x1000 && b[i + 1] == 0x80 + (v / 0x40) % 0x40 && b[i + 2] == 0x80 + v % 0x40
    ensures DecodeFrom(b, i, Initial) == [v as char] + DecodeFrom(b, i + 3, Initial)
  {
    Digits3(v);
    Steps3(b, i, v / 0x1000, (v / 0x40) % 0x40, v % 0x40);
  }

  lemma {:induction false} Digits4(v: int)
    requires 0x1_0000 <= v < 0x11_0000
    ensures (((v / 0x4_0000) * 0x40 + (v / 0x1000) % 0x40) * 0x40 + (v / 0x40) % 0x40) * 0x40 + v % 0x40 == v
    ensures v / 0x4_0000 <= 4
    ensures v / 0x4_0000 == 0 ==> (v / 0x1000) % 0x40 >= 0x10
    ensures v / 0x4_0000 == 4 ==> (v / 0x1000) % 0x40 < 0x10
  {
  }

  lemma {:induction false} Steps4(b: seq<Byte>, i: nat, d0: nat, d1: nat, d2: nat, d3: nat)
    requires d0 <= 4 && d1 < 0x40 && d2 < 0x40 && d3 < 0x40 && i + 4 <= |b|
    requires b[i] == 0xF0 + d0 && b[i + 1] == 0x80 + d1 && b[i + 2] == 0x80 + d2 && b[i + 3] == 0x80 + d3
    requires d0 == 0 ==> d1 >= 0x10
    requires d0 == 4 ==> d1 < 0x10
    ensures DecodeFrom(b, i, Initial) == [ScalarToChar(((d0 * 0x40 + d1) * 0x40 + d2) * 0x40 + d3)] + DecodeFrom(b, i + 4, Initial)
  {
    var st1 := State(3, 0, d0, if d0 == 0 then 0x90 else 0x80, if d0 == 4 then 0x8F else 0xBF);
    var st2 := State(3, 1, d0 * 0x40 + d1, 0x80, 0xBF);
    var st3 := State(3, 2, (d0 * 0x40 + d1) * 0x40 + d2, 0x80, 0xBF);
    assert DecodeFrom(b, i, Initial) == DecodeFrom(b, i + 1, st1);
    assert DecodeFrom(b, i + 1, st1) == DecodeFrom(b, i + 2, st2);
    assert DecodeFrom(b, i + 2, st2) == DecodeFrom(b, i + 3, st3);
  }

  lemma {:induction false} DecodeFour(b: seq<Byte>, i: nat, v: int)
    requires 0x1_0000 <= v < 0x11_0000 && i + 4 <= |b|
    requires b[i] == 0xF0 + v / 0x4_0000 && b[i + 1] == 0x80 + (v / 0x1000) % 0x40
    requires b[i + 2] == 0x80 + (v / 0x40) % 0x40 && b[i + 3] == 0x80 + v % 0x40
    ensures DecodeFrom(b, i, Initial) == [v as char] + DecodeFrom(b, i + 4, Initial)
  {
    Digits4(v);
    Steps4(b, i, v / 0x4_0000, (v / 0x1000) % 0x40, (v / 0x40) % 0x40, v % 0x40);
  }

  /** The decoder turns the encoding of c back into c and returns to its
      initial state. */
  lemma {:induction false} DecodeOne(b: seq<Byte>, i: nat, c: char)
    requires i + |EncodeChar(c)| <= |b| && b[i..i + |EncodeChar(c)|] == EncodeChar(c)
    ensures DecodeFrom(b, i, Initial) == [c] + DecodeFrom(b, i + |EncodeChar(c)|, Initial)
  {
    var v := c as int;
    var e := EncodeChar(c);
    assert forall k | 0 <= k < |e| :: b[i + k] == e[k] by {
      forall k | 0 <= k < |e| ensures b[i + k] == e[k] {
        assert b[i..i + |e|][k] == b[i + k];
      }
    }
    if v < 0x80 {
    } else if v < 0x800 {
      DecodeTwo(b, i, v);
    } else if v < 0x1_0000 {
      DecodeThree(b, i, v);
    } else {
      DecodeFour(b, i, v);
    }
  }

  lemma {:induction false} DecodeEncodeFrom(b: seq<Byte>, i: nat, s: string)
    requires i <= |b| && b[i..] == Encode(s)
    ensures DecodeFrom(b, i, Initial) == s
    decreases s
  {
    if s != [] {
      var e := EncodeChar(s[0]);
      assert b[i..i + |e|] == e by {
        assert b[i..i + |e|] == b[i..][..|e|];
      }
      assert b[i + |e|..] == Encode(s[1..]) by {
        assert b[i + |e|..] == b[i..][|e|..];
      }
      DecodeOne(b, i, s[0]);
      DecodeEncodeFrom(b, i + |e|, s[1..]);
    }
  }

  /** Decoding what was encoded gives the string back, unless it begins
      with U+FEFF, which the decoder takes for a byte order mark and drops. */
  lemma {:induction false} DecodeEncode(s: string)
    ensures Decode(Encode(s)) == StripBom(s)
    ensures (|s| == 0 || s[0] != Bom) ==> Decode(Encode(s)) == s
  {
    DecodeEncodeFrom(Encode(s), 0, s);
  }

  // ---- Lengths ----

  /** A string never has more UTF-16 units than UTF-8 bytes. */
  lemma {:induction false} Utf16AtMostUtf8(s: string)
    ensures Utf16Length(s) <= |Encode(s)|
  {
    if s != [] {
      Utf16AtMostUtf8(s[1..]);
    }
  }

  /** Characters from U+0080 to U+07FF take one UTF-16 unit but two bytes. */
  lemma {:induction false} TwoByteLengths(s: string)
    requires forall k :: 0 <= k < |s| ==> 0x80 <= s[k] as int < 0x800
    ensures Utf16Length(s) == |s| && |Encode(s)| == 2 * |s|
  {
    if s != [] {
      TwoByteLengths(s[1..]);
    }
  }
}
