/**
 The byte side of Rust strings.  A `string` here is a sequence of Unicode scalar
 values (Dafny's `char`); `Encode` gives the UTF-8 bytes Rust stores (section 3 of
 RFC 3629), and the rest of the module relates byte offsets to character counts.
 */
module Utf8 {
  import opened Text

  type Byte = b: int | 0 <= b < 256

  function EncodeChar(c: char): (bytes: seq<Byte>)
    ensures 1 <= |bytes| <= 4
    ensures !IsContinuation(bytes[0])
    ensures forall i :: 1 <= i < |bytes| ==> IsContinuation(bytes[i])
  {
    var n := c as int;
    if n < 0x80 then [n]
    else if n < 0x800 then [0xC0 + n / 64, 0x80 + n % 64]
    else if n < 0x1_0000 then [0xE0 + n / 4096, 0x80 + n / 64 % 64, 0x80 + n % 64]
    else [0xF0 + n / 262144, 0x80 + n / 4096 % 64, 0x80 + n / 64 % 64, 0x80 + n % 64]
  }

  function Encode(s: string): seq<Byte> {
    if s == [] then [] else EncodeChar(s[0]) + Encode(s[1..])
  }

  /** `String::len`: the number of bytes. */
  function ByteLen(s: string): nat { |Encode(s)| }

  /** A byte of the form `10xxxxxx`, which never starts a character. */
  predicate IsContinuation(b: Byte) { 0x80 <= b < 0xC0 }

  /** `str::is_char_boundary`. */
  predicate IsCharBoundary(text: seq<Byte>, index: nat) {
    index == 0 || index == |text| || (index < |text| && !IsContinuation(text[index]))
  }

  lemma {:induction false} EncodeConcat(a: string, b: string)
    ensures Encode(a + b) == Encode(a) + Encode(b)
  {
    if a == [] {
      assert a + b == b;
    } else {
      assert (a + b)[0] == a[0] && (a + b)[1..] == a[1..] + b;
      EncodeConcat(a[1..], b);
    }
  }

  lemma EncodeSplit(s: string, k: nat)
    requires k <= |s|
    ensures Encode(s) == Encode(s[..k]) + Encode(s[k..])
  {
    assert s == s[..k] + s[k..];
    EncodeConcat(s[..k], s[k..]);
  }

  /** Every whole-character prefix ends on a character boundary ... */
  lemma PrefixIsBoundary(s: string, k: nat)
    requires k <= |s|
    ensures ByteLen(s[..k]) <= ByteLen(s)
    ensures IsCharBoundary(Encode(s), ByteLen(s[..k]))
  {
    EncodeSplit(s, k);
    if k < |s| {
      assert Encode(s[k..])[0] == EncodeChar(s[k])[0];
      assert Encode(s)[ByteLen(s[..k])] == Encode(s[k..])[0];
    } else {
      assert s[..k] == s;
    }
  }

  /** ... and every character boundary is the end of such a prefix. */
  lemma {:induction false} BoundaryIsPrefix(s: string, index: nat) returns (k: nat)
    requires index <= ByteLen(s) && IsCharBoundary(Encode(s), index)
    ensures k <= |s| && ByteLen(s[..k]) == index
  {
    if index == 0 {
      k := 0;
    } else {
      var width := |EncodeChar(s[0])|;
      if index < width {
        assert false;
      } else {
        var rest := index - width;
        assert rest < |Encode(s[1..])| ==> Encode(s)[index] == Encode(s[1..])[rest];
        k := BoundaryIsPrefix(s[1..], rest);
        assert s[..k + 1][1..] == s[1..][..k];
        k := k + 1;
      }
    }
  }

  /** How many characters of `s` fit whole in `limit` bytes. */
  function Fit(s: string, limit: nat): (k: nat)
    ensures k <= |s|
  {
    if s == [] || |EncodeChar(s[0])| > limit then 0
    else 1 + Fit(s[1..], limit - |EncodeChar(s[0])|)
  }

  /** `Fit` is the longest prefix within the limit: it fits, and one more character does not. */
  lemma {:induction false} FitIsLongest(s: string, limit: nat)
    ensures ByteLen(s[..Fit(s, limit)]) <= limit
    ensures Fit(s, limit) < |s| ==> ByteLen(s[..Fit(s, limit) + 1]) > limit
    ensures Fit(s, limit) == |s| <==> ByteLen(s) <= limit
  {
    if s == [] {
    } else if |EncodeChar(s[0])| > limit {
      assert s[..1][0] == s[0];
      assert Encode(s[..1]) == EncodeChar(s[0]) + Encode(s[..1][1..]);
    } else {
      var k := Fit(s[1..], limit - |EncodeChar(s[0])|);
      FitIsLongest(s[1..], limit - |EncodeChar(s[0])|);
      assert s[..k + 1][1..] == s[1..][..k];
      if k + 1 < |s| {
        assert s[..k + 2][1..] == s[1..][..k + 1];
      }
    }
  }

  lemma PrefixLenMonotone(s: string, j: nat, k: nat)
    requires j <= k <= |s|
    ensures ByteLen(s[..j]) <= ByteLen(s[..k])
    ensures j < k ==> ByteLen(s[..j]) < ByteLen(s[..k])
  {
    assert s[..k][..j] == s[..j];
    EncodeSplit(s[..k], j);
    if j < k {
      assert s[..k][j..] != [];
    }
  }

  /** `floor_char_boundary`: step back from `limit` to a character boundary. */
  method FloorCharBoundary(text: seq<Byte>, limit: nat) returns (cut: nat)
    ensures cut <= limit && cut <= |text| && IsCharBoundary(text, cut)
    ensures forall j :: cut < j <= limit && j <= |text| ==> !IsCharBoundary(text, j)
  {
    cut := if limit < |text| then limit else |text|;
    while cut > 0 && !IsCharBoundary(text, cut)
      invariant cut <= limit && cut <= |text|
      invariant forall j :: cut < j <= limit && j <= |text| ==> !IsCharBoundary(text, j)
    {
      cut := cut - 1;
    }
  }

  /** The byte cut `FloorCharBoundary` promises is exactly the end of the longest whole-character prefix. */
  lemma FloorIsFit(s: string, limit: nat, cut: nat)
    requires cut <= limit && cut <= ByteLen(s) && IsCharBoundary(Encode(s), cut)
    requires forall j :: cut < j <= limit && j <= ByteLen(s) ==> !IsCharBoundary(Encode(s), j)
    ensures Encode(s)[..cut] == Encode(s[..Fit(s, limit)])
  {
    var k := BoundaryIsPrefix(s, cut);
    var fit := Fit(s, limit);
    FitIsLongest(s, limit);
    PrefixIsBoundary(s, fit);
    if fit < k {
      PrefixLenMonotone(s, fit + 1, k);
    } else if k < fit {
      PrefixLenMonotone(s, k, fit);
    }
    EncodeSplit(s, fit);
  }

  /** Bytes of the character a lead byte starts. */
  function Width(lead: Byte): (w: nat)
    ensures 1 <= w <= 4
  {
    if lead < 0x80 then 1 else if lead < 0xE0 then 2 else if lead < 0xF0 then 3 else 4
  }

  function Scalar(n: int): char {
    if 0 <= n < 0xD800 || 0xE000 <= n < 0x11_0000 then n as char else '\U{FFFD}'
  }

  /** The first character of non-empty text, read from its lead byte on. */
  function FirstChar(text: seq<Byte>): char
    requires text != []
  {
    var w := Width(text[0]);
    if |text| < w then '\U{FFFD}'
    else
      var bytes: seq<int> := text[..w];
      if w == 1 then Scalar(bytes[0])
      else if w == 2 then Scalar((bytes[0] - 0xC0) * 64 + bytes[1] - 0x80)
      else if w == 3 then Scalar((bytes[0] - 0xE0) * 4096 + (bytes[1] - 0x80) * 64 + bytes[2] - 0x80)
      else Scalar((bytes[0] - 0xF0) * 262144 + (bytes[1] - 0x80) * 4096
                  + (bytes[2] - 0x80) * 64 + bytes[3] - 0x80)
  }

  /** `str::chars`, collected. */
  function Decode(text: seq<Byte>): string {
    if text == [] then []
    else if |text| < Width(text[0]) then [FirstChar(text)]
    else [FirstChar(text)] + Decode(text[Width(text[0])..])
  }

  lemma NestedDivision(n: nat)
    ensures n / 4096 == n / 64 / 64 && n / 262144 == n / 4096 / 64
  {
  }

  lemma LastDigit(n: nat)
    ensures n == n / 64 * 64 + n % 64
  {
  }

  lemma Base64Digits(n: nat)
    ensures n == n / 4096 * 4096 + n / 64 % 64 * 64 + n % 64
    ensures n == n / 262144 * 262144 + n / 4096 % 64 * 4096 + n / 64 % 64 * 64 + n % 64
  {
    NestedDivision(n);
    LastDigit(n);
    LastDigit(n / 64);
    LastDigit(n / 4096);
  }

  lemma FirstCharAlone(c: char)
    ensures Width(EncodeChar(c)[0]) == |EncodeChar(c)| && FirstChar(EncodeChar(c)) == c
  {
    Base64Digits(c as int);
  }

  lemma FirstCharOfEncoded(c: char, rest: seq<Byte>)
    ensures Width((EncodeChar(c) + rest)[0]) == |EncodeChar(c)|
    ensures FirstChar(EncodeChar(c) + rest) == c
  {
    var code, text := EncodeChar(c), EncodeChar(c) + rest;
    FirstCharAlone(c);
    assert text[..|code|] == code[..|code|];
  }

  /** Decoding inverts encoding, so a string's bytes determine it. */
  lemma {:induction false} DecodeEncode(s: string)
    ensures Decode(Encode(s)) == s
  {
    if s != [] {
      var text := Encode(s);
      FirstCharOfEncoded(s[0], Encode(s[1..]));
      assert text[Width(text[0])..] == Encode(s[1..]);
      DecodeEncode(s[1..]);
    }
  }

  /** Valid UTF-8: the bytes of some string. */
  predicate IsUtf8(text: seq<Byte>) { Encode(Decode(text)) == text }

  // ----- the order of strings

  /** How Rust compares strings: byte by byte. */
  predicate BytesLess(a: seq<Byte>, b: seq<Byte>) {
    if b == [] then false
    else if a == [] then true
    else a[0] < b[0] || (a[0] == b[0] && BytesLess(a[1..], b[1..]))
  }

  lemma {:induction false} FirstDifference(a: seq<Byte>, b: seq<Byte>, k: nat)
    requires k < |a| && k < |b| && a[..k] == b[..k] && a[k] < b[k]
    ensures BytesLess(a, b)
  {
    if k > 0 {
      assert a[0] == a[..k][0] && b[0] == b[..k][0];
      assert a[1..][..k - 1] == a[..k][1..] && b[1..][..k - 1] == b[..k][1..];
      FirstDifference(a[1..], b[1..], k - 1);
    }
  }

  /** Numbers compare by their base-64 digits. */
  lemma DigitsDiffer(n: nat, m: nat)
    requires n < m
    ensures n / 64 < m / 64 || (n / 64 == m / 64 && n % 64 < m % 64)
  {
  }

  lemma LeadsDiffer(n: nat, m: nat)
    requires n < m
    ensures n / 64 <= m / 64 && n / 4096 <= m / 4096
    ensures n / 4096 < m / 4096 || (n / 4096 == m / 4096
            && (n / 64 % 64 < m / 64 % 64 || (n / 64 == m / 64 && n % 64 < m % 64)))
  {
    NestedDivision(n);
    NestedDivision(m);
    DigitsDiffer(n, m);
    if n / 64 < m / 64 {
      DigitsDiffer(n / 64, m / 64);
    }
  }

  lemma WideCharsDiffer(c: char, d: char) returns (k: nat)
    requires c < d && 0x1_0000 <= c as int
    ensures k < |EncodeChar(c)| && k < |EncodeChar(d)|
    ensures EncodeChar(c)[..k] == EncodeChar(d)[..k] && EncodeChar(c)[k] < EncodeChar(d)[k]
  {
    var n, m := c as int, d as int;
    LeadsDiffer(n, m);
    NestedDivision(n);
    NestedDivision(m);
    if n / 4096 < m / 4096 {
      DigitsDiffer(n / 4096, m / 4096);
      k := if n / 262144 < m / 262144 then 0 else 1;
    } else {
      k := if n / 64 % 64 < m / 64 % 64 then 2 else 3;
    }
  }

  lemma NarrowCharsDiffer(c: char, d: char) returns (k: nat)
    requires c < d && |EncodeChar(c)| == |EncodeChar(d)| <= 3
    ensures k < |EncodeChar(c)|
    ensures EncodeChar(c)[..k] == EncodeChar(d)[..k] && EncodeChar(c)[k] < EncodeChar(d)[k]
  {
    var n, m := c as int, d as int;
    LeadsDiffer(n, m);
    if n < 0x80 {
      k := 0;
    } else if n < 0x800 {
      k := if n / 64 < m / 64 then 0 else 1;
    } else {
      k := if n / 4096 < m / 4096 then 0 else if n / 64 % 64 < m / 64 % 64 then 1 else 2;
    }
  }

  /** Where the encodings of two characters first differ. */
  lemma CharsDiffer(c: char, d: char) returns (k: nat)
    requires c < d
    ensures k < |EncodeChar(c)| && k < |EncodeChar(d)|
    ensures EncodeChar(c)[..k] == EncodeChar(d)[..k] && EncodeChar(c)[k] < EncodeChar(d)[k]
  {
    if |EncodeChar(c)| < |EncodeChar(d)| {
      k := 0;
    } else if c as int < 0x1_0000 {
      k := NarrowCharsDiffer(c, d);
    } else {
      k := WideCharsDiffer(c, d);
    }
  }

  lemma CharsOrder(c: char, d: char, x: seq<Byte>, y: seq<Byte>)
    requires c < d
    ensures BytesLess(EncodeChar(c) + x, EncodeChar(d) + y)
  {
    var k := CharsDiffer(c, d);
    var a, b := EncodeChar(c) + x, EncodeChar(d) + y;
    assert a[..k] == EncodeChar(c)[..k] && b[..k] == EncodeChar(d)[..k];
    FirstDifference(a, b, k);
  }

  lemma {:induction false} BytesLessIsAsymmetric(a: seq<Byte>, b: seq<Byte>)
    ensures !(BytesLess(a, b) && BytesLess(b, a))
  {
    if a != [] && b != [] {
      BytesLessIsAsymmetric(a[1..], b[1..]);
    }
  }

  lemma {:induction false} CommonPrefix(p: seq<Byte>, x: seq<Byte>, y: seq<Byte>)
    ensures BytesLess(p + x, p + y) <==> BytesLess(x, y)
  {
    if p == [] {
      assert p + x == x && p + y == y;
    } else {
      assert (p + x)[1..] == p[1..] + x && (p + y)[1..] == p[1..] + y;
      CommonPrefix(p[1..], x, y);
    }
  }

  /** On UTF-8 the byte order is the order of the characters. */
  lemma {:induction false} LessIsByteOrder(a: string, b: string)
    ensures Less(a, b) <==> BytesLess(Encode(a), Encode(b))
  {
    if a != [] && b != [] {
      var x, y := Encode(a[1..]), Encode(b[1..]);
      if a[0] == b[0] {
        CommonPrefix(EncodeChar(a[0]), x, y);
        LessIsByteOrder(a[1..], b[1..]);
      } else if a[0] < b[0] {
        CharsOrder(a[0], b[0], x, y);
      } else {
        CharsOrder(b[0], a[0], y, x);
        BytesLessIsAsymmetric(Encode(a), Encode(b));
      }
    }
  }

  // ----- lines of bytes

  const NEWLINE: Byte := 0x0A
  const RETURN: Byte := 0x0D

  function FindByte(text: seq<Byte>, wanted: Byte): (at: Option<nat>)
    ensures at.Some? ==> at.value < |text| && text[at.value] == wanted
                         && forall j :: 0 <= j < at.value ==> text[j] != wanted
    ensures at.None? <==> wanted !in text
  {
    if text == [] then None
    else if text[0] == wanted then Some(0)
    else
      var rest := FindByte(text[1..], wanted);
      if rest.Some? then Some(rest.value + 1) else None
  }

  lemma FindByteConcat(a: seq<Byte>, b: seq<Byte>, wanted: Byte)
    requires wanted in a
    ensures FindByte(a + b, wanted) == FindByte(a, wanted)
  {
    var at := FindByte(a, wanted).value;
    assert (a + b)[at] == wanted;
    var found := FindByte(a + b, wanted);
    assert wanted in a + b;
    assert forall j :: 0 <= j < at ==> (a + b)[j] == a[j];
  }

  /** A line without its line break: one carriage return before it goes too. */
  function Stripped(line: seq<Byte>): seq<Byte> {
    if line != [] && line[|line| - 1] == RETURN then line[..|line| - 1] else line
  }
}
