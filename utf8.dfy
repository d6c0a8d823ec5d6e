/** UTF-8 (RFC 3629): how the codec turns a text payload and the password
    into bytes (`str.encode('utf-8')`), with the matching decoder. */
module Utf8 {
  import opened Wrappers
  import opened Bytes

  /** A continuation byte `10xxxxxx`. */
  predicate IsCont(b: byte) { 0x80 <= b < 0xC0 }

  /** The one to four bytes that encode one Unicode scalar value. */
  function EncodeChar(c: char): (r: seq<byte>)
    ensures 1 <= |r| <= 4
    ensures (c as int < 0x80) <==> |r| == 1
  {
    var n := c as int;
    if n < 0x80 then
      [n as byte]
    else if n < 0x800 then
      [(0xC0 + n / 64) as byte, (0x80 + n % 64) as byte]
    else if n < 0x10000 then
      [(0xE0 + n / 4096) as byte, (0x80 + (n / 64) % 64) as byte, (0x80 + n % 64) as byte]
    else
      [(0xF0 + n / 262144) as byte, (0x80 + (n / 4096) % 64) as byte,
       (0x80 + (n / 64) % 64) as byte, (0x80 + n % 64) as byte]
  }

  /** `s.encode('utf-8')`. */
  function Encode(s: string): (r: seq<byte>)
    ensures |s| <= |r| <= 4 * |s|
  {
    if s == [] then [] else EncodeChar(s[0]) + Encode(s[1..])
  }

  /** True when `n` is a Unicode scalar value, i.e. a valid Dafny `char`. */
  predicate IsScalar(n: int) { 0 <= n < 0xD800 || 0xE000 <= n < 0x110000 }

  /** Decodes the first character of `b`, rejecting truncated, overlong and
      surrogate sequences; yields the character and the number of bytes used. */
  function DecodeChar(b: seq<byte>): (r: Option<(char, nat)>)
    requires |b| > 0
    ensures r.Some? ==> 1 <= r.value.1 <= |b|
  {
    var b0 := b[0] as int;
    if b0 < 0x80 then
      Some((b0 as char, 1))
    else if 0xC0 <= b0 < 0xE0 && |b| >= 2 && IsCont(b[1]) then
      var n := (b0 - 0xC0) * 64 + (b[1] as int - 0x80);
      if n >= 0x80 then Some((n as char, 2)) else None
    else if 0xE0 <= b0 < 0xF0 && |b| >= 3 && IsCont(b[1]) && IsCont(b[2]) then
      var n := (b0 - 0xE0) * 4096 + (b[1] as int - 0x80) * 64 + (b[2] as int - 0x80);
      if n >= 0x800 && IsScalar(n) then Some((n as char, 3)) else None
    else if 0xF0 <= b0 < 0xF8 && |b| >= 4 && IsCont(b[1]) && IsCont(b[2]) && IsCont(b[3]) then
      var n := (b0 - 0xF0) * 262144 + (b[1] as int - 0x80) * 4096
               + (b[2] as int - 0x80) * 64 + (b[3] as int - 0x80);
      if 0x10000 <= n < 0x110000 then Some((n as char, 4)) else None
    else
      None
  }

  /** `bytes.decode('utf-8')`: None where Python raises UnicodeDecodeError. */
  function Decode(b: seq<byte>): (r: Option<string>)
    decreases |b|
  {
    if b == [] then Some([])
    else match DecodeChar(b)
      case None => None
      case Some((c, k)) =>
        match Decode(b[k..])
        case None => None
        case Some(rest) => Some([c] + rest)
  }

  /** Decoding the encoding of one character gives that character back and
      consumes exactly its bytes. */
  lemma DecodeEncodeChar(c: char, rest: seq<byte>)
    ensures DecodeChar(EncodeChar(c) + rest) == Some((c, |EncodeChar(c)|))
  {
    var n := c as int;
    if n < 0x80 {
    } else if n < 0x800 {
      DecodeTwo(c, rest);
    } else if n < 0x10000 {
      DecodeThree(c, rest);
    } else {
      DecodeFour(c, rest);
    }
  }

  lemma DecodeTwo(c: char, rest: seq<byte>)
    requires 0x80 <= c as int < 0x800
    ensures DecodeChar(EncodeChar(c) + rest) == Some((c, 2))
  {
    var n := c as int;
    var x0, x1 := 0xC0 + n / 64, 0x80 + n % 64;
    assert 0xC0 <= x0 < 0xE0 && 0x80 <= x1 < 0xC0;
    assert (x0 - 0xC0) * 64 + (x1 - 0x80) == n;
    var e := EncodeChar(c) + rest;
    assert e[0] == x0 as byte && e[1] == x1 as byte;
  }

  lemma DecodeThree(c: char, rest: seq<byte>)
    requires 0x800 <= c as int < 0x10000
    ensures DecodeChar(EncodeChar(c) + rest) == Some((c, 3))
  {
    var n := c as int;
    var x0, x1, x2 := 0xE0 + n / 4096, 0x80 + (n / 64) % 64, 0x80 + n % 64;
    assert 0xE0 <= x0 < 0xF0 && 0x80 <= x1 < 0xC0 && 0x80 <= x2 < 0xC0;
    assert (x0 - 0xE0) * 4096 + (x1 - 0x80) * 64 + (x2 - 0x80) == n;
    var e := EncodeChar(c) + rest;
    assert e[0] == x0 as byte && e[1] == x1 as byte && e[2] == x2 as byte;
  }

  lemma DecodeFour(c: char, rest: seq<byte>)
    requires 0x10000 <= c as int
    ensures DecodeChar(EncodeChar(c) + rest) == Some((c, 4))
  {
    var n := c as int;
    var x0, x1 := 0xF0 + n / 262144, 0x80 + (n / 4096) % 64;
    var x2, x3 := 0x80 + (n / 64) % 64, 0x80 + n % 64;
    SplitFour(n);
    var e := EncodeChar(c) + rest;
    assert e[0] == x0 as byte && e[1] == x1 as byte && e[2] == x2 as byte && e[3] == x3 as byte;
  }

  /** The four 3-, 6-, 6- and 6-bit fields of a supplementary code point. */
  lemma SplitFour(n: int)
    requires 0x10000 <= n < 0x110000
    ensures 0 <= n / 262144 < 8 && 0 <= (n / 4096) % 64 < 64
    ensures n / 262144 * 262144 + (n / 4096) % 64 * 4096 + (n / 64) % 64 * 64 + n % 64 == n
  {
    var q := n / 64;
    assert n == q * 64 + n % 64;
    assert q == q / 64 * 64 + q % 64;
    assert q / 64 == n / 4096;
    assert q / 64 == n / 4096 / 64 * 64 + (n / 4096) % 64;
    assert n / 4096 / 64 == n / 262144;
  }

  /** UTF-8 round trip: every string is recovered from its encoding. */
  lemma {:induction false} DecodeEncode(s: string)
    ensures Decode(Encode(s)) == Some(s)
  {
    if s != [] {
      var head := EncodeChar(s[0]);
      var e := Encode(s);
      assert e == head + Encode(s[1..]);
      DecodeEncodeChar(s[0], Encode(s[1..]));
      assert e[|head|..] == Encode(s[1..]);
      DecodeEncode(s[1..]);
      assert [s[0]] + s[1..] == s;
    }
  }

  /** ASCII text encodes byte for byte. */
  lemma {:induction false} EncodeAscii(s: string)
    requires forall i :: 0 <= i < |s| ==> s[i] as int < 0x80
    ensures |Encode(s)| == |s|
    ensures forall i :: 0 <= i < |s| ==> Encode(s)[i] as int == s[i] as int
  {
    if s != [] {
      EncodeAscii(s[1..]);
    }
  }
}
