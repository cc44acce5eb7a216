// The restore-point file name codec of src/modules/backup.ts: the
// metadata of a backup travels in the name of its Drive file.

module Backup {

  /** A JavaScript number as the codec sees it: an integer, or NaN (what
      Number.parseInt gives when it finds no digits). */
  datatype Number = Int(value: int) | NaN

  datatype Metadata = Metadata(createdAt: Number, automatic: bool, fileSize: Number)

  /** A Drive file as listed: its id and its name. */
  datatype DriveFile = DriveFile(id: string, name: string)

  datatype RestorePoint = RestorePoint(createdAt: Number, automatic: bool, fileSize: Number, fileId: string)

  const Prefix: string := "outfits-"
  const Extension: string := ".json"

  predicate IsDigit(c: char) { '0' <= c <= '9' }

  /** The decimal digits of a natural number, as String() prints them. */
  function Digits(n: nat): (s: string)
    ensures |s| > 0 && forall i :: 0 <= i < |s| ==> IsDigit(s[i])
    ensures n > 0 ==> s[0] != '0'
    ensures |s| > 1 ==> s[0] != '0'
    decreases n
  {
    if n < 10 then [('0' as int + n) as char]
    else Digits(n / 10) + [('0' as int + n % 10) as char]
  }

  /** A number in a template literal: an integer's decimal digits with a
      '-' in front when it is negative, or "NaN". */
  function Show(x: Number): (s: string)
  {
    match x
    case NaN => "NaN"
    case Int(v) => if v < 0 then "-" + Digits(-v) else Digits(v)
  }

  /** encodeMetadata: outfits-<createdAt>-<1 or 0>-<fileSize>.json. */
  function EncodeMetadata(m: Metadata): (name: string)
    ensures name == Prefix + Show(m.createdAt) + "-" + (if m.automatic then "1" else "0") + "-"
                    + Show(m.fileSize) + Extension
  {
    Prefix + Show(m.createdAt) + "-" + (if m.automatic then "1" else "0") + "-" + Show(m.fileSize) + Extension
  }

  /** String.prototype.replace with a string pattern: the first
      occurrence replaced, or the string unchanged when there is none. */
  function ReplaceFirst(s: string, pattern: string, replacement: string): (r: string)
    decreases |s|
  {
    if |pattern| <= |s| && s[..|pattern|] == pattern then replacement + s[|pattern|..]
    else if |s| <= |pattern| then s
    else [s[0]] + ReplaceFirst(s[1..], pattern, replacement)
  }

  /** String.prototype.split on a one-character separator: the pieces
      between the separators, in order; a string without one is a single
      piece. */
  function Split(s: string, sep: char): (parts: seq<string>)
    ensures |parts| > 0
    decreases |s|
  {
    if sep !in s then [s]
    else
      var i := FirstIndex(s, sep);
      [s[..i]] + Split(s[i + 1..], sep)
  }

  function FirstIndex(s: string, c: char): (i: nat)
    requires c in s
    ensures i < |s| && s[i] == c && c !in s[..i]
    decreases |s|
  {
    if s[0] == c then 0 else 1 + FirstIndex(s[1..], c)
  }

  /** StrWhiteSpaceChar of ECMAScript: WhiteSpace (tab, vertical tab,
      form feed, the byte order mark and the Zs space separators) and
      LineTerminator. */
  predicate IsWhiteSpace(c: char)
  {
    var n := c as int;
    || n == 0x09 || n == 0x0B || n == 0x0C || n == 0xFEFF
    || n == 0x20 || n == 0xA0 || n == 0x1680 || 0x2000 <= n <= 0x200A
    || n == 0x202F || n == 0x205F || n == 0x3000
    || n == 0x0A || n == 0x0D || n == 0x2028 || n == 0x2029
  }

  function TrimStart(s: string): (t: string)
    ensures |t| <= |s| && (|t| > 0 ==> !IsWhiteSpace(t[0]))
    decreases |s|
  {
    if |s| > 0 && IsWhiteSpace(s[0]) then TrimStart(s[1..]) else s
  }

  /** TrimStart(s) is a suffix of s, and every character it drops is white
      space. */
  lemma {:induction false} TrimStartDrops(s: string)
    ensures TrimStart(s) == s[|s| - |TrimStart(s)|..]
    ensures forall k :: 0 <= k < |s| - |TrimStart(s)| ==> IsWhiteSpace(s[k])
    decreases |s|
  {
    if |s| > 0 && IsWhiteSpace(s[0]) {
      TrimStartDrops(s[1..]);
      assert s[1..][|s| - 1 - |TrimStart(s)|..] == s[|s| - |TrimStart(s)|..];
      forall k | 0 <= k < |s| - |TrimStart(s)|
        ensures IsWhiteSpace(s[k])
      {
        if k > 0 {
          assert s[k] == s[1..][k - 1];
        }
      }
    }
  }

  /** The value of a digit in radix 10 or 16, or 16 for a character that
      is no digit in either. */
  function DigitOf(c: char): (d: nat)
    ensures d <= 16
  {
    if '0' <= c <= '9' then c as int - '0' as int
    else if 'a' <= c <= 'f' then c as int - 'a' as int + 10
    else if 'A' <= c <= 'F' then c as int - 'A' as int + 10
    else 16
  }

  /** How many characters at the front are digits of the radix. */
  function DigitRun(s: string, radix: nat): (n: nat)
    ensures n <= |s|
    decreases |s|
  {
    if |s| > 0 && DigitOf(s[0]) < radix then 1 + DigitRun(s[1..], radix) else 0
  }

  /** The value of a string of digits of the radix. */
  function Value(s: string, radix: nat): nat
    decreases |s|
  {
    if s == [] then 0
    else
      var d := DigitOf(s[|s| - 1]);
      Value(s[..|s| - 1], radix) * radix + (if d < radix then d else 0)
  }

  /** Number.parseInt without a radix: leading white space skipped, one
      optional sign, radix 16 after a "0x" or "0X" prefix and 10
      otherwise, then the longest run of digits; NaN when that run is
      empty. */
  function ParseInt(s: string): (x: Number)
    ensures x.Int? ==> var t := TrimStart(s);
      |t| > 0 && (t[0] == '-' || t[0] == '+' || '0' <= t[0] <= '9')
    ensures x.Int? && x.value < 0 ==> TrimStart(s)[0] == '-'
  {
    var t := TrimStart(s);
    var negative := |t| > 0 && t[0] == '-';
    var u := if |t| > 0 && (t[0] == '-' || t[0] == '+') then t[1..] else t;
    var hex := |u| >= 2 && u[0] == '0' && (u[1] == 'x' || u[1] == 'X');
    var radix := if hex then 16 else 10;
    var v := if hex then u[2..] else u;
    var z := v[..DigitRun(v, radix)];
    if z == [] then NaN
    else
      var magnitude: int := Value(z, radix);
      Int(if negative then -magnitude else magnitude)
  }

  /** metadata[i] parsed; a missing piece is undefined, which parses to
      NaN. */
  function Field(parts: seq<string>, i: nat): (x: Number)
    ensures i >= |parts| ==> x == NaN
  {
    if i < |parts| then ParseInt(parts[i]) else NaN
  }

  /** decodeMetadata: the first ".json" removed, the rest split on '-',
      and pieces 1, 2 and 3 parsed; automatic is true exactly when piece 2
      does not parse to 0 (NaN included). */
  function DecodeMetadata(name: string): (m: Metadata)
    ensures m.automatic <==> Field(Split(ReplaceFirst(name, Extension, ""), '-'), 2) != Int(0)
  {
    var parts := Split(ReplaceFirst(name, Extension, ""), '-');
    Metadata(Field(parts, 1), Field(parts, 2) != Int(0), Field(parts, 3))
  }

  /** A restore point from a listed file: its decoded name and its id. */
  function RestorePointOf(f: DriveFile): (p: RestorePoint)
    ensures p.fileId == f.id
  {
    var m := DecodeMetadata(f.name);
    RestorePoint(m.createdAt, m.automatic, m.fileSize, f.id)
  }

  predicate HasPrefix(name: string)
  {
    |Prefix| <= |name| && name[..|Prefix|] == Prefix
  }

  /** The listed files that are restore points, in listing order. */
  function Kept(files: seq<DriveFile>): (r: seq<DriveFile>)
    ensures |r| <= |files|
    ensures forall f :: f in r ==> f in files && HasPrefix(f.name)
    ensures forall f :: f in files && HasPrefix(f.name) ==> f in r
    decreases |files|
  {
    if files == [] then []
    else
      var init, last := files[..|files| - 1], files[|files| - 1];
      assert files == init + [last];
      Kept(init) + (if HasPrefix(last.name) then [last] else [])
  }

  /** The loop of getRestorePoints over a listing: each file whose name
      starts with "outfits-" becomes a restore point. */
  method RestorePoints(files: seq<DriveFile>) returns (points: seq<RestorePoint>)
    ensures |points| == |Kept(files)|
    ensures forall i :: 0 <= i < |points| ==> points[i] == RestorePointOf(Kept(files)[i])
  {
    points := [];
    for i := 0 to |files|
      invariant |points| == |Kept(files[..i])|
      invariant forall k :: 0 <= k < |points| ==> points[k] == RestorePointOf(Kept(files[..i])[k])
    {
      KeptSnoc(files, i);
      ghost var before := Kept(files[..i]);
      if HasPrefix(files[i].name) {
        assert Kept(files[..i + 1]) == before + [files[i]];
        points := points + [RestorePointOf(files[i])];
      } else {
        assert Kept(files[..i + 1]) == before;
      }
    }
    assert files[..|files|] == files;
  }

  lemma {:induction false} KeptSnoc(files: seq<DriveFile>, i: nat)
    requires i < |files|
    ensures Kept(files[..i + 1]) == Kept(files[..i]) + (if HasPrefix(files[i].name) then [files[i]] else [])
  {
    assert files[..i + 1][..i] == files[..i];
  }

  /** Digits parse back as the number they print. */
  lemma {:induction false} ParseDigits(n: nat)
    ensures ParseInt(Digits(n)) == Int(n)
  {
    var s := Digits(n);
    assert TrimStart(s) == s;
    AllDigitsRun(s);
    assert s[..|s|] == s;
    DigitsValue(n);
  }

  lemma {:induction false} AllDigitsRun(s: string)
    requires forall i :: 0 <= i < |s| ==> IsDigit(s[i])
    ensures DigitRun(s, 10) == |s|
    decreases |s|
  {
    if |s| > 0 {
      AllDigitsRun(s[1..]);
    }
  }

  lemma {:induction false} DigitsValue(n: nat)
    ensures Value(Digits(n), 10) == n
    decreases n
  {
    if n >= 10 {
      DigitsValue(n / 10);
      var s := Digits(n);
      assert s[..|s| - 1] == Digits(n / 10);
    }
  }

  /** "NaN" has no digits. */
  lemma {:induction false} ParseNaN()
    ensures ParseInt("NaN") == NaN
  {
    var s := "NaN";
    assert !IsWhiteSpace(s[0]);
    assert TrimStart(s) == s;
    assert DigitOf(s[0]) == 16;
    assert DigitRun(s, 10) == 0;
  }

  /** A field that round-trips: a non-negative integer or NaN. */
  predicate Storable(x: Number)
  {
    x.NaN? || x.value >= 0
  }

  lemma {:induction false} ShowReads(x: Number)
    requires Storable(x)
    ensures ParseInt(Show(x)) == x
    ensures '-' !in Show(x) && '.' !in Show(x)
  {
    if x.NaN? {
      ParseNaN();
    } else {
      ParseDigits(x.value);
    }
  }

  /** A string without a '.' holds no ".json" but at its end. */
  lemma {:induction false} ReplaceAtEnd(x: string)
    requires '.' !in x
    ensures ReplaceFirst(x + Extension, Extension, "") == x
    decreases |x|
  {
    if x == [] {
      assert (x + Extension)[..|Extension|] == Extension;
    } else {
      assert x[0] in x;
      assert (x + Extension)[..|Extension|][0] == x[0] != '.';
      assert (x + Extension)[1..] == x[1..] + Extension;
      ReplaceAtEnd(x[1..]);
    }
  }

  /** Splitting at a first separator. */
  lemma {:induction false} SplitFirst(a: string, b: string)
    requires '-' !in a
    ensures Split(a + "-" + b, '-') == [a] + Split(b, '-')
  {
    var s := a + "-" + b;
    assert s[|a|] == '-';
    var i := FirstIndex(s, '-');
    assert s[..|a|] == a;
    assert s[..i] == a && s[i + 1..] == b;
  }

  /** The name without its extension splits into its four pieces. */
  lemma {:induction false} SplitName(c: string, a: string, f: string)
    requires '-' !in c && '-' !in a && '-' !in f
    ensures Split(Prefix + c + "-" + a + "-" + f, '-') == ["outfits", c, a, f]
  {
    var u := c + "-" + a + "-" + f;
    assert Prefix + c + "-" + a + "-" + f == "outfits" + "-" + u;
    SplitFirst("outfits", u);
    SplitThree(c, a, f);
  }

  lemma {:induction false} SplitThree(c: string, a: string, f: string)
    requires '-' !in c && '-' !in a && '-' !in f
    ensures Split(c + "-" + a + "-" + f, '-') == [c, a, f]
  {
    var t := a + "-" + f;
    assert c + "-" + a + "-" + f == c + "-" + t;
    SplitFirst(c, t);
    SplitTwo(a, f);
  }

  lemma {:induction false} SplitTwo(a: string, f: string)
    requires '-' !in a && '-' !in f
    ensures Split(a + "-" + f, '-') == [a, f]
  {
    SplitFirst(a, f);
  }

  /** The name without its extension has no '.'. */
  lemma {:induction false} NoDot(c: string, a: string, f: string)
    requires '.' !in c && '.' !in a && '.' !in f
    ensures '.' !in Prefix + c + "-" + a + "-" + f
  {
    var body := Prefix + c + "-" + a + "-" + f;
    forall i | 0 <= i < |body|
      ensures body[i] != '.'
    {
      if i >= |Prefix| + |c| + 1 + |a| + 1 {
        assert body[i] == f[i - (|Prefix| + |c| + 1 + |a| + 1)];
      } else if i >= |Prefix| + |c| + 1 + |a| {
      } else if i >= |Prefix| + |c| + 1 {
        assert body[i] == a[i - (|Prefix| + |c| + 1)];
      } else if i >= |Prefix| + |c| {
      } else if i >= |Prefix| {
        assert body[i] == c[i - |Prefix|];
      }
    }
  }

  /** decodeMetadata reads back what encodeMetadata wrote, when the two
      numbers are non-negative integers or NaN. */
  lemma {:induction false} DecodeEncode(m: Metadata)
    requires Storable(m.createdAt) && Storable(m.fileSize)
    ensures DecodeMetadata(EncodeMetadata(m)) == m
  {
    var c, a, f := Show(m.createdAt), if m.automatic then "1" else "0", Show(m.fileSize);
    ShowReads(m.createdAt);
    ShowReads(m.fileSize);
    var body := Prefix + c + "-" + a + "-" + f;
    NoDot(c, a, f);
    ReplaceAtEnd(body);
    SplitName(c, a, f);
    ParseDigits(if m.automatic then 1 else 0);
    assert Digits(if m.automatic then 1 else 0) == a;
  }
}
