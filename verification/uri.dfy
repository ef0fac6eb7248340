/**
 * `encodeURIComponent` (section 19.2.6.5 of ECMA-262): every character outside
 * the unreserved set is replaced by the percent-escaped bytes of its UTF-8
 * encoding, with upper-case hexadecimal digits.
 */
module UriEncoding {

  /** Characters `encodeURIComponent` leaves as they are. */
  predicate IsUnreserved(c: char) {
    ('A' <= c <= 'Z') || ('a' <= c <= 'z') || ('0' <= c <= '9')
    || c == '-' || c == '_' || c == '.' || c == '!' || c == '~' || c == '*'
    || c == '\'' || c == '(' || c == ')'
  }

  predicate IsUpperHex(c: char) {
    ('0' <= c <= '9') || ('A' <= c <= 'F')
  }

  /** May appear in the output of `Encode`: an unreserved character or part of an escape. */
  predicate IsEncodedChar(c: char) {
    IsUnreserved(c) || c == '%' || IsUpperHex(c)
  }

  function HexDigit(d: nat): (c: char)
    requires d < 16
    ensures IsUpperHex(c)
  {
    if d < 10 then (d + '0' as int) as char else (d - 10 + 'A' as int) as char
  }

  /** The value of an upper-case hexadecimal digit (the inverse of `HexDigit`). */
  function HexValue(c: char): nat
    requires IsUpperHex(c)
  {
    if '0' <= c <= '9' then c as int - '0' as int else c as int - 'A' as int + 10
  }

  /** The escape `%XY` of one byte. */
  function EscapeByte(b: nat): (r: string)
    requires b < 256
    ensures |r| == 3 && r[0] == '%' && IsUpperHex(r[1]) && IsUpperHex(r[2])
    ensures 16 * HexValue(r[1]) + HexValue(r[2]) == b
  {
    "%" + [HexDigit(b / 16), HexDigit(b % 16)]
  }

  /** The UTF-8 bytes of one code point. */
  function Utf8(c: char): (bytes: seq<nat>)
    ensures 1 <= |bytes| <= 4
    ensures forall i :: 0 <= i < |bytes| ==> bytes[i] < 256
    ensures c as int < 0x80 <==> |bytes| == 1
    ensures c as int < 0x80 ==> bytes == [c as int]
  {
    var n := c as int;
    if n < 0x80 then [n]
    else if n < 0x800 then [0xC0 + n / 64, 0x80 + n % 64]
    else if n < 0x10000 then [0xE0 + n / 4096, 0x80 + (n / 64) % 64, 0x80 + n % 64]
    else [0xF0 + n / 262144, 0x80 + (n / 4096) % 64, 0x80 + (n / 64) % 64, 0x80 + n % 64]
  }

  function EscapeBytes(bytes: seq<nat>): (r: string)
    requires forall i :: 0 <= i < |bytes| ==> bytes[i] < 256
    ensures |r| == 3 * |bytes|
    ensures forall i :: 0 <= i < |r| ==> IsEncodedChar(r[i])
  {
    if |bytes| == 0 then "" else EscapeByte(bytes[0]) + EscapeBytes(bytes[1..])
  }

  function EncodeChar(c: char): (r: string)
    ensures IsUnreserved(c) ==> r == [c]
    ensures !IsUnreserved(c) ==> |r| >= 3 && r[0] == '%'
    ensures forall i :: 0 <= i < |r| ==> IsEncodedChar(r[i])
  {
    if IsUnreserved(c) then [c] else EscapeBytes(Utf8(c))
  }

  /** `encodeURIComponent(s)`. */
  function Encode(s: string): (r: string)
    ensures |r| >= |s|
    ensures forall i :: 0 <= i < |r| ==> IsEncodedChar(r[i])
  {
    if |s| == 0 then "" else EncodeChar(s[0]) + Encode(s[1..])
  }

  /** Encoding works character by character, so it distributes over concatenation. */
  lemma {:induction false} EncodeAppend(a: string, b: string)
    ensures Encode(a + b) == Encode(a) + Encode(b)
  {
    if |a| == 0 {
      assert a + b == b;
    } else {
      assert (a + b)[0] == a[0];
      assert (a + b)[1..] == a[1..] + b;
      EncodeAppend(a[1..], b);
    }
  }

  /** A string of unreserved characters is its own encoding. */
  lemma {:induction false} EncodeUnreserved(s: string)
    requires forall i :: 0 <= i < |s| ==> IsUnreserved(s[i])
    ensures Encode(s) == s
  {
    if |s| > 0 {
      EncodeUnreserved(s[1..]);
      assert s == [s[0]] + s[1..];
    }
  }

  /**
   * `decodeURIComponent` restricted to single-byte escapes: `%XY` becomes the
   * character with code `XY`, anything else is kept.
   */
  function DecodeAscii(s: string): string {
    if |s| >= 3 && s[0] == '%' && IsUpperHex(s[1]) && IsUpperHex(s[2])
    then [(16 * HexValue(s[1]) + HexValue(s[2])) as char] + DecodeAscii(s[3..])
    else if |s| == 0 then ""
    else [s[0]] + DecodeAscii(s[1..])
  }

  predicate IsAscii(s: string) {
    forall i :: 0 <= i < |s| ==> s[i] as int < 0x80
  }

  /** Decoding undoes `encodeURIComponent` on ASCII text. */
  lemma {:induction false} DecodeEncodeAscii(s: string)
    requires IsAscii(s)
    ensures DecodeAscii(Encode(s)) == s
  {
    if |s| > 0 {
      DecodeEncodeHead(s);
      DecodeEncodeAscii(s[1..]);
      assert s == [s[0]] + s[1..];
    }
  }

  /** The first character of ASCII text comes back first. */
  lemma DecodeEncodeHead(s: string)
    requires |s| > 0 && s[0] as int < 0x80
    ensures DecodeAscii(Encode(s)) == [s[0]] + DecodeAscii(Encode(s[1..]))
  {
    var c := s[0];
    var rest := Encode(s[1..]);
    if IsUnreserved(c) {
      assert Encode(s) == [c] + rest;
      DecodeKeptHead(c, rest);
    } else {
      EncodeAsciiEscaped(c);
      assert Encode(s) == EscapeByte(c as int) + rest;
      DecodeEscapedHead(c, rest);
    }
  }

  /** A reserved ASCII character is encoded as the single escape of its code. */
  lemma EncodeAsciiEscaped(c: char)
    requires c as int < 0x80 && !IsUnreserved(c)
    ensures EncodeChar(c) == EscapeByte(c as int)
  {
    assert EscapeBytes([c as int]) == EscapeByte(c as int) + EscapeBytes([]);
  }

  /** An unreserved first character is kept by the decoder. */
  lemma DecodeKeptHead(c: char, rest: string)
    requires IsUnreserved(c)
    ensures DecodeAscii([c] + rest) == [c] + DecodeAscii(rest)
  {
    assert ([c] + rest)[1..] == rest;
  }

  /** The escape of an ASCII first character decodes back to it. */
  lemma DecodeEscapedHead(c: char, rest: string)
    requires c as int < 0x80
    ensures DecodeAscii(EscapeByte(c as int) + rest) == [c] + DecodeAscii(rest)
  {
    var e := EscapeByte(c as int);
    assert (e + rest)[3..] == rest;
    assert (e + rest)[..3] == e;
  }

  /** Two ASCII strings embedded in the same context have the same encoding only if they are equal. */
  lemma EncodeCancel(a: string, x: string, y: string, b: string)
    requires IsAscii(x) && IsAscii(y)
    requires Encode(a + x + b) == Encode(a + y + b)
    ensures x == y
  {
    EncodeAppend(a, x);
    EncodeAppend(a + x, b);
    EncodeAppend(a, y);
    EncodeAppend(a + y, b);
    var ea, eb, ex, ey := Encode(a), Encode(b), Encode(x), Encode(y);
    var r := Encode(a + x + b);
    assert r == ea + ex + eb && r == ea + ey + eb;
    assert |ex| == |ey|;
    assert ex == r[|ea|..|ea| + |ex|] == ey;
    DecodeEncodeAscii(x);
    DecodeEncodeAscii(y);
  }
}
