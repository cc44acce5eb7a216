// hex2rgb and rgb2hex from src/lib/color.ts.

module Color {
  import opened Results
  import opened Schema

  /** A character of the class [a-f\d] under the case-insensitive flag. */
  predicate IsHexDigit(c: char)
  {
    '0' <= c <= '9' || 'a' <= c <= 'f' || 'A' <= c <= 'F'
  }

  predicate AllHex(s: string)
  {
    forall i :: 0 <= i < |s| ==> IsHexDigit(s[i])
  }

  /** A lower-case hexadecimal digit, the alphabet of toString(16). */
  predicate IsLowerHex(c: char)
  {
    '0' <= c <= '9' || 'a' <= c <= 'f'
  }

  /** The value of one hexadecimal digit, either case. */
  function DigitValue(c: char): (v: nat)
    requires IsHexDigit(c)
    ensures v < 16
  {
    if '0' <= c <= '9' then c as int - '0' as int
    else if 'a' <= c <= 'f' then c as int - 'a' as int + 10
    else c as int - 'A' as int + 10
  }

  /** The lower-case digit of a value below 16. */
  function DigitChar(v: nat): (c: char)
    requires v < 16
    ensures IsLowerHex(c) && DigitValue(c) == v
  {
    if v < 10 then ('0' as int + v) as char else ('a' as int + v - 10) as char
  }

  /** toLowerCase on a hexadecimal digit. */
  function LowerDigit(c: char): (l: char)
    requires IsHexDigit(c)
    ensures IsLowerHex(l) && DigitValue(l) == DigitValue(c)
  {
    if 'A' <= c <= 'F' then (c as int - 'A' as int + 'a' as int) as char else c
  }

  /** The text the regular expression ^#?([a-f\d]{2})([a-f\d]{2})([a-f\d]{2})$
      (flag i) captures: six digits, with or without a leading '#'. */
  function Captured(hex: string): (r: Option<string>)
    ensures r.Some? <==> (|hex| == 6 && AllHex(hex)) || (|hex| == 7 && hex[0] == '#' && AllHex(hex[1..]))
    ensures r.Some? ==> |r.value| == 6 && AllHex(r.value)
  {
    if |hex| == 6 && AllHex(hex) then Some(hex)
    else if |hex| == 7 && hex[0] == '#' && AllHex(hex[1..]) then Some(hex[1..])
    else None
  }

  /** Number.parseInt of a two-digit group, radix 16. */
  function PairValue(hi: char, lo: char): (v: nat)
    requires IsHexDigit(hi) && IsHexDigit(lo)
    ensures v < 256
  {
    16 * DigitValue(hi) + DigitValue(lo)
  }

  /** hex2rgb: the three channels of a six-digit colour, or null (None)
      for anything the expression does not match. */
  function Hex2Rgb(hex: string): (r: Option<Rgb>)
    ensures r.Some? <==> Captured(hex).Some?
    ensures r.Some? ==> RgbValid(r.value)
  {
    match Captured(hex)
    case None => None
    case Some(d) =>
      Some(Rgb(PairValue(d[0], d[1]), PairValue(d[2], d[3]), PairValue(d[4], d[5])))
  }

  /** Number.prototype.toString(16) of a non-negative integer: lower-case
      digits, most significant first, no leading zeros. */
  function ToHex(n: nat): (s: string)
    ensures |s| > 0
    decreases n
  {
    if n < 16 then [DigitChar(n)] else ToHex(n / 16) + [DigitChar(n % 16)]
  }

  /** rgb2hex: (1 << 24 | r << 16 | g << 8 | b).toString(16) without its
      first character. For channels in 0..255 the four terms occupy
      disjoint bits, so the bitwise or is their sum. */
  function Rgb2Hex(c: Rgb): (hex: string)
    requires RgbValid(c)
    ensures |hex| == 6 && forall i :: 0 <= i < 6 ==> IsLowerHex(hex[i])
  {
    var n := 0x100_0000 + c.r * 0x1_0000 + c.g * 0x100 + c.b;
    HexDigits(c);
    ToHex(n)[1..]
  }

  /** The digits of the packed colour: a leading 1 and the two digits of
      each channel. */
  lemma {:induction false} HexDigits(c: Rgb)
    requires RgbValid(c)
    ensures ToHex(0x100_0000 + c.r * 0x1_0000 + c.g * 0x100 + c.b)
      == ['1', DigitChar(c.r / 16), DigitChar(c.r % 16), DigitChar(c.g / 16),
          DigitChar(c.g % 16), DigitChar(c.b / 16), DigitChar(c.b % 16)]
  {
    var n0 := 0x100_0000 + c.r * 0x1_0000 + c.g * 0x100 + c.b;
    var n1 := 0x10_0000 + c.r * 0x1000 + c.g * 0x10 + c.b / 16;
    var n2 := 0x1_0000 + c.r * 0x100 + c.g;
    var n3 := 0x1000 + c.r * 0x10 + c.g / 16;
    var n4 := 0x100 + c.r;
    var n5 := 0x10 + c.r / 16;
    assert n0 / 16 == n1 && n0 % 16 == c.b % 16;
    assert n1 / 16 == n2 && n1 % 16 == c.b / 16;
    assert n2 / 16 == n3 && n2 % 16 == c.g % 16;
    assert n3 / 16 == n4 && n3 % 16 == c.g / 16;
    assert n4 / 16 == n5 && n4 % 16 == c.r % 16;
    assert n5 / 16 == 1 && n5 % 16 == c.r / 16;
    assert ToHex(n5) == ['1', DigitChar(c.r / 16)];
    assert ToHex(n4) == ToHex(n5) + [DigitChar(c.r % 16)];
    assert ToHex(n3) == ToHex(n4) + [DigitChar(c.g / 16)];
    assert ToHex(n2) == ToHex(n3) + [DigitChar(c.g % 16)];
    assert ToHex(n1) == ToHex(n2) + [DigitChar(c.b / 16)];
    assert ToHex(n0) == ToHex(n1) + [DigitChar(c.b % 16)];
  }

  /** Reading back what rgb2hex printed gives the colour. */
  lemma {:induction false} Hex2RgbOfRgb2Hex(c: Rgb)
    requires RgbValid(c)
    ensures Hex2Rgb(Rgb2Hex(c)) == Some(c)
  {
    HexDigits(c);
    var hex := Rgb2Hex(c);
    assert hex == [DigitChar(c.r / 16), DigitChar(c.r % 16), DigitChar(c.g / 16),
                   DigitChar(c.g % 16), DigitChar(c.b / 16), DigitChar(c.b % 16)];
    assert AllHex(hex);
    PairBack(c.r);
    PairBack(c.g);
    PairBack(c.b);
  }

  /** The two digits of a byte parse back to it. */
  lemma {:induction false} PairBack(v: nat)
    requires v < 256
    ensures PairValue(DigitChar(v / 16), DigitChar(v % 16)) == v
  {
  }

  /** Printing a parsed colour gives its digits without '#', in lower
      case. */
  lemma {:induction false} Rgb2HexOfHex2Rgb(hex: string)
    requires Hex2Rgb(hex).Some?
    ensures forall i :: 0 <= i < 6 ==> Rgb2Hex(Hex2Rgb(hex).value)[i] == LowerDigit(Captured(hex).value[i])
  {
    var d := Captured(hex).value;
    var c := Hex2Rgb(hex).value;
    assert c == Rgb(PairValue(d[0], d[1]), PairValue(d[2], d[3]), PairValue(d[4], d[5]));
    HexDigits(c);
    PairDigits(d[0], d[1]);
    PairDigits(d[2], d[3]);
    PairDigits(d[4], d[5]);
  }

  /** The two digits of a parsed pair print as the pair in lower case. */
  lemma {:induction false} PairDigits(hi: char, lo: char)
    requires IsHexDigit(hi) && IsHexDigit(lo)
    ensures DigitChar(PairValue(hi, lo) / 16) == LowerDigit(hi)
    ensures DigitChar(PairValue(hi, lo) % 16) == LowerDigit(lo)
  {
    DigitOfValue(LowerDigit(hi));
    DigitOfValue(LowerDigit(lo));
  }

  /** A lower-case digit is the digit of its value. */
  lemma {:induction false} DigitOfValue(c: char)
    requires IsLowerHex(c)
    ensures DigitChar(DigitValue(c)) == c
  {
  }
}
