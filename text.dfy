/** The two string operations the ingestion code applies to a document's
    text: Python's `str.strip()` with no argument, and `str.encode('utf-8')`,
    whose bytes are what the content hash is computed over. */
module Text {
  import opened Wrappers

  type byte = b: int | 0 <= b < 256

  /** The characters for which Python's `str.isspace()` holds, which are the
      ones `str.strip()` removes: the ASCII controls TAB to CR and FS to US,
      SPACE, NEL, NO-BREAK SPACE and the Unicode space separators and
      line/paragraph separators. */
  predicate IsSpace(c: char) {
    || ('\t' <= c <= '\r')
    || ('\U{1C}' <= c <= '\U{1F}')
    || c == ' '
    || c == '\U{85}'
    || c == '\U{A0}'
    || c == '\U{1680}'
    || ('\U{2000}' <= c <= '\U{200A}')
    || c == '\U{2028}'
    || c == '\U{2029}'
    || c == '\U{202F}'
    || c == '\U{205F}'
    || c == '\U{3000}'
  }

  /** Drops leading whitespace: the result is a suffix of `s` and what was
      dropped is all whitespace. */
  function TrimStart(s: string): (r: string)
    ensures |r| <= |s| && r == s[|s| - |r|..]
    ensures forall i :: 0 <= i < |s| - |r| ==> IsSpace(s[i])
    ensures r != [] ==> !IsSpace(r[0])
  {
    if s != [] && IsSpace(s[0]) then TrimStart(s[1..]) else s
  }

  /** Drops trailing whitespace: the result is a prefix of `s` and what was
      dropped is all whitespace. */
  function TrimEnd(s: string): (r: string)
    ensures |r| <= |s| && r == s[..|r|]
    ensures forall i :: |r| <= i < |s| ==> IsSpace(s[i])
    ensures r != [] ==> !IsSpace(r[|r| - 1])
  {
    if s != [] && IsSpace(s[|s| - 1]) then TrimEnd(s[..|s| - 1]) else s
  }

  /** The number of whitespace characters `strip()` removes at the front. */
  function LeadingSpaces(s: string): nat {
    |s| - |TrimStart(s)|
  }

  /** Python's `s.strip()`: the infix of `s` left once the whitespace at both
      ends is removed. It is empty exactly when `s` is all whitespace. */
  function Strip(s: string): (r: string)
    ensures LeadingSpaces(s) + |r| <= |s|
    ensures r == s[LeadingSpaces(s)..LeadingSpaces(s) + |r|]
    ensures forall i :: 0 <= i < LeadingSpaces(s) ==> IsSpace(s[i])
    ensures forall i :: LeadingSpaces(s) + |r| <= i < |s| ==> IsSpace(s[i])
    ensures r != [] ==> !IsSpace(r[0]) && !IsSpace(r[|r| - 1])
    ensures r == [] <==> forall i :: 0 <= i < |s| ==> IsSpace(s[i])
  {
    var t := TrimStart(s);
    var r := TrimEnd(t);
    StripShape(s, t, r, |s| - |t|);
    r
  }

  /** Trimming the end of a suffix `t` of `s` that starts at `a` leaves an
      infix of `s` followed only by whitespace. */
  lemma StripShape(s: string, t: string, r: string, a: nat)
    requires a <= |s| && t == s[a..] && |r| <= |t| && r == t[..|r|]
    requires forall i :: |r| <= i < |t| ==> IsSpace(t[i])
    ensures r == s[a..a + |r|]
    ensures forall i :: a + |r| <= i < |s| ==> IsSpace(s[i])
    ensures r != [] ==> r[0] == s[a]
  {
    forall i | a + |r| <= i < |s|
      ensures IsSpace(s[i])
    {
      assert s[i] == t[i - a];
    }
  }

  /** Stripping is idempotent: the text stored in a record is its own strip. */
  lemma StripIdempotent(s: string)
    ensures Strip(Strip(s)) == Strip(s)
  {
  }

  /** The UTF-8 encoding of one Unicode scalar value (1 to 4 bytes). */
  function EncodeChar(c: char): (b: seq<byte>)
    ensures 1 <= |b| <= 4
    ensures |b| == 1 <==> c as int < 0x80
  {
    var v := c as int;
    if v < 0x80 then [v]
    else if v < 0x800 then [0xC0 + v / 64, 0x80 + v % 64]
    else if v < 0x10000 then [0xE0 + v / 4096, 0x80 + (v / 64) % 64, 0x80 + v % 64]
    else [0xF0 + v / 262144, 0x80 + (v / 4096) % 64, 0x80 + (v / 64) % 64, 0x80 + v % 64]
  }

  /** Python's `text.encode('utf-8')`. Dafny characters are scalar values,
      so, as for the strings a strict decoder produces, it never fails. */
  function Utf8Encode(s: string): (b: seq<byte>)
    ensures |s| <= |b| <= 4 * |s|
  {
    if s == [] then [] else EncodeChar(s[0]) + Utf8Encode(s[1..])
  }

  predicate IsContinuation(b: int) {
    0x80 <= b < 0xC0
  }

  /** Decodes the first scalar value of a non-empty byte string: the
      character and the number of bytes it took, or None when the bytes
      there are not well-formed UTF-8 (bad lead or continuation byte,
      overlong form, surrogate, or a value above U+10FFFF). */
  function DecodeFirst(b: seq<byte>): (r: Option<(char, nat)>)
    requires |b| > 0
    ensures r.Some? ==> 1 <= r.value.1 <= |b| && r.value.1 <= 4
  {
    var b0: int := b[0];
    var b1: int := if |b| > 1 then b[1] else 0;
    var b2: int := if |b| > 2 then b[2] else 0;
    var b3: int := if |b| > 3 then b[3] else 0;
    if b0 < 0x80 then
      Some((b0 as char, 1))
    else if 0xC2 <= b0 < 0xE0 && |b| >= 2 && IsContinuation(b1) then
      var v := (b0 - 0xC0) * 64 + (b1 - 0x80);
      Some((v as char, 2))
    else if 0xE0 <= b0 < 0xF0 && |b| >= 3 && IsContinuation(b1) && IsContinuation(b2) then
      var v := ((b0 - 0xE0) * 64 + (b1 - 0x80)) * 64 + (b2 - 0x80);
      if 0x800 <= v && !(0xD800 <= v < 0xE000) then Some((v as char, 3)) else None
    else if 0xF0 <= b0 < 0xF5 && |b| >= 4 && IsContinuation(b1) && IsContinuation(b2) && IsContinuation(b3) then
      var v := (((b0 - 0xF0) * 64 + (b1 - 0x80)) * 64 + (b2 - 0x80)) * 64 + (b3 - 0x80);
      if 0x10000 <= v < 0x11_0000 then Some((v as char, 4)) else None
    else
      None
  }

  /** A strict UTF-8 decoder (Python's `bytes.decode('utf-8')`), or None
      where Python would raise `UnicodeDecodeError`. */
  function Utf8Decode(b: seq<byte>): Option<string>
    decreases |b|
  {
    if b == [] then Some([])
    else
      match DecodeFirst(b)
      case None => None
      case Some((c, n)) =>
        match Utf8Decode(b[n..])
        case None => None
        case Some(rest) => Some([c] + rest)
  }

  /** Decoding the first character of an encoding gives that character back. */
  lemma DecodeFirstOfEncodeChar(c: char, rest: seq<byte>)
    ensures DecodeFirst(EncodeChar(c) + rest) == Some((c, |EncodeChar(c)|))
  {
    var v := c as int;
    if v < 0x80 {
    } else if v < 0x800 {
      DecodeTwoBytes(c, rest);
    } else if v < 0x10000 {
      DecodeThreeBytes(c, rest);
    } else {
      DecodeFourBytes(c, rest);
    }
  }

  lemma DecodeTwoBytes(c: char, rest: seq<byte>)
    requires 0x80 <= c as int < 0x800
    ensures DecodeFirst(EncodeChar(c) + rest) == Some((c, 2))
  {
    var v := c as int;
    var q, r := v / 64, v % 64;
    assert v == q * 64 + r && 2 <= q < 32 && 0 <= r < 64;
    var b := EncodeChar(c) + rest;
    assert b[0] == 0xC0 + q && b[1] == 0x80 + r;
  }

  lemma DecodeThreeBytes(c: char, rest: seq<byte>)
    requires 0x800 <= c as int < 0x10000
    ensures DecodeFirst(EncodeChar(c) + rest) == Some((c, 3))
  {
    var v := c as int;
    var q1, r0 := v / 64, v % 64;
    var q2, r1 := q1 / 64, q1 % 64;
    assert v == q1 * 64 + r0 && 0 <= r0 < 64;
    assert q1 == q2 * 64 + r1 && 0 <= r1 < 64;
    assert v / 4096 == q2 && q2 < 16;
    var b := EncodeChar(c) + rest;
    assert b[0] == 0xE0 + q2 && b[1] == 0x80 + r1 && b[2] == 0x80 + r0;
    assert (q2 * 64 + r1) * 64 + r0 == v;
  }

  lemma DecodeFourBytes(c: char, rest: seq<byte>)
    requires 0x10000 <= c as int
    ensures DecodeFirst(EncodeChar(c) + rest) == Some((c, 4))
  {
    var v := c as int;
    assert v < 0x11_0000;
    var q1, r0 := v / 64, v % 64;
    var q2, r1 := q1 / 64, q1 % 64;
    var q3, r2 := q2 / 64, q2 % 64;
    assert v == q1 * 64 + r0 && 0 <= r0 < 64;
    assert q1 == q2 * 64 + r1 && 0 <= r1 < 64;
    assert q2 == q3 * 64 + r2 && 0 <= r2 < 64;
    assert v / 4096 == q2 && v / 262144 == q3 && q3 < 5;
    var b := EncodeChar(c) + rest;
    assert b[0] == 0xF0 + q3 && b[1] == 0x80 + r2 && b[2] == 0x80 + r1 && b[3] == 0x80 + r0;
    assert ((q3 * 64 + r2) * 64 + r1) * 64 + r0 == v;
  }

  /** Round trip: decoding the UTF-8 encoding of a string gives the string. */
  lemma {:induction false} Utf8RoundTrip(s: string)
    ensures Utf8Decode(Utf8Encode(s)) == Some(s)
  {
    if s != [] {
      var head := EncodeChar(s[0]);
      var tail := Utf8Encode(s[1..]);
      var b := head + tail;
      DecodeFirstOfEncodeChar(s[0], tail);
      assert b[|head|..] == tail;
      Utf8RoundTrip(s[1..]);
      assert [s[0]] + s[1..] == s;
    }
  }

  /** Different strings have different UTF-8 encodings. */
  lemma Utf8Injective(s: string, t: string)
    requires Utf8Encode(s) == Utf8Encode(t)
    ensures s == t
  {
    Utf8RoundTrip(s);
    Utf8RoundTrip(t);
  }
}
