/** Base64 with the standard alphabet and '=' padding (section 4 of
    RFC 4648): `base64.b64encode` and `base64.b64decode` as the codec uses
    them for its wire format. */
module Base64 {
  import opened Wrappers
  import opened Bytes

  const PadChar: char := '='

  /** The character of the standard alphabet for a 6-bit value. */
  function CharOf(i: int): (c: char)
    requires 0 <= i < 64
    ensures c != PadChar
  {
    if i < 26 then ('A' as int + i) as char
    else if i < 52 then ('a' as int + (i - 26)) as char
    else if i < 62 then ('0' as int + (i - 52)) as char
    else if i == 62 then '+'
    else '/'
  }

  /** The 6-bit value of an alphabet character; None for any other character. */
  function IndexOf(c: char): (r: Option<int>)
    ensures r.Some? ==> 0 <= r.value < 64 && CharOf(r.value) == c
    ensures r.None? ==> forall i :: 0 <= i < 64 ==> CharOf(i) != c
  {
    if 'A' <= c <= 'Z' then Some(c as int - 'A' as int)
    else if 'a' <= c <= 'z' then Some(c as int - 'a' as int + 26)
    else if '0' <= c <= '9' then Some(c as int - '0' as int + 52)
    else if c == '+' then Some(62)
    else if c == '/' then Some(63)
    else None
  }

  predicate InAlphabet(c: char) { IndexOf(c).Some? }

  /** Three octets become four characters. */
  function EncodeTriple(b0: byte, b1: byte, b2: byte): string
  {
    [CharOf(b0 as int / 4), CharOf((b0 as int % 4) * 16 + b1 as int / 16),
     CharOf((b1 as int % 16) * 4 + b2 as int / 64), CharOf(b2 as int % 64)]
  }

  /** `b64encode`: groups of three octets, a final group of one or two octets
      padded with '='. */
  function Encode(b: seq<byte>): (r: string)
    ensures |r| == 4 * ((|b| + 2) / 3)
    ensures forall i :: 0 <= i < |r| ==> InAlphabet(r[i]) || r[i] == PadChar
    decreases |b|
  {
    if |b| == 0 then []
    else if |b| == 1 then
      [CharOf(b[0] as int / 4), CharOf((b[0] as int % 4) * 16), PadChar, PadChar]
    else if |b| == 2 then
      [CharOf(b[0] as int / 4), CharOf((b[0] as int % 4) * 16 + b[1] as int / 16),
       CharOf((b[1] as int % 16) * 4), PadChar]
    else
      assert (|b| + 2) / 3 == (|b[3..]| + 2) / 3 + 1;
      EncodeTriple(b[0], b[1], b[2]) + Encode(b[3..])
  }

  /** Decodes one group of four characters, the last one when `last` holds
      (only the last group may carry padding). Bits a padded group does not
      use are ignored, as Python's decoder ignores them. */
  function DecodeQuad(q: string, last: bool): (r: Option<seq<byte>>)
    requires |q| == 4
    ensures r.Some? ==> 1 <= |r.value| <= 3
    ensures r.Some? && !last ==> |r.value| == 3
  {
    var i0, i1, i2, i3 := IndexOf(q[0]), IndexOf(q[1]), IndexOf(q[2]), IndexOf(q[3]);
    if i0.None? || i1.None? then None
    else
      var s0, s1 := i0.value, i1.value;
      var o0 := (s0 * 4 + s1 / 16) as byte;
      if last && q[2] == PadChar && q[3] == PadChar then
        Some([o0])
      else if i2.None? then None
      else
        var s2 := i2.value;
        var o1 := ((s1 % 16) * 16 + s2 / 4) as byte;
        if last && q[3] == PadChar then
          Some([o0, o1])
        else if i3.None? then None
        else
          Some([o0, o1, ((s2 % 4) * 64 + i3.value) as byte])
  }

  /** `b64decode`: None where Python raises `binascii.Error`. */
  function Decode(s: string): (r: Option<seq<byte>>)
    decreases |s|
  {
    if |s| == 0 then Some([])
    else if |s| < 4 then None
    else
      match DecodeQuad(s[..4], |s| == 4)
      case None => None
      case Some(head) =>
        match Decode(s[4..])
        case None => None
        case Some(tail) => Some(head + tail)
  }

  lemma IndexOfCharOf(i: int)
    requires 0 <= i < 64
    ensures IndexOf(CharOf(i)) == Some(i)
  {
    if i < 26 {
    } else if i < 52 {
    } else if i < 62 {
    }
  }

  /** The sextets of a triple, reassembled, give back the triple. */
  lemma SextetArithmetic(b0: int, b1: int, b2: int)
    requires 0 <= b0 < 256 && 0 <= b1 < 256 && 0 <= b2 < 256
    ensures var s0, s1 := b0 / 4, (b0 % 4) * 16 + b1 / 16;
            var s2, s3 := (b1 % 16) * 4 + b2 / 64, b2 % 64;
            && 0 <= s1 < 64 && 0 <= s2 < 64
            && s0 * 4 + s1 / 16 == b0
            && (s1 % 16) * 16 + s2 / 4 == b1
            && (s2 % 4) * 64 + s3 == b2
  {
  }

  lemma DecodeTriple(b0: byte, b1: byte, b2: byte, last: bool)
    ensures DecodeQuad(EncodeTriple(b0, b1, b2), last) == Some([b0, b1, b2])
  {
    var x0, x1, x2 := b0 as int, b1 as int, b2 as int;
    SextetArithmetic(x0, x1, x2);
    var q := EncodeTriple(b0, b1, b2);
    IndexOfCharOf(x0 / 4);
    IndexOfCharOf((x0 % 4) * 16 + x1 / 16);
    IndexOfCharOf((x1 % 16) * 4 + x2 / 64);
    IndexOfCharOf(x2 % 64);
  }

  lemma DecodeSingle(b0: byte)
    ensures DecodeQuad(Encode([b0]), true) == Some([b0])
  {
    var x0 := b0 as int;
    SextetArithmetic(x0, 0, 0);
    IndexOfCharOf(x0 / 4);
    IndexOfCharOf((x0 % 4) * 16);
  }

  lemma DecodePair(b0: byte, b1: byte)
    ensures DecodeQuad(Encode([b0, b1]), true) == Some([b0, b1])
  {
    var x0, x1 := b0 as int, b1 as int;
    SextetArithmetic(x0, x1, 0);
    var s0, s1, s2 := x0 / 4, (x0 % 4) * 16 + x1 / 16, (x1 % 16) * 4;
    IndexOfCharOf(s0);
    IndexOfCharOf(s1);
    IndexOfCharOf(s2);
    var q := Encode([b0, b1]);
    assert q == [CharOf(s0), CharOf(s1), CharOf(s2), PadChar];
    assert IndexOf(q[0]) == Some(s0) && IndexOf(q[1]) == Some(s1) && IndexOf(q[2]) == Some(s2);
    assert q[2] != PadChar && q[3] == PadChar;
    assert DecodeQuad(q, true) == Some([(s0 * 4 + s1 / 16) as byte, ((s1 % 16) * 16 + s2 / 4) as byte]);
  }

  /** Decoding undoes encoding: the Base64 round trip. */
  lemma {:induction false} DecodeEncode(b: seq<byte>)
    ensures Decode(Encode(b)) == Some(b)
    decreases |b|
  {
    if |b| == 1 {
      DecodeSingle(b[0]);
      assert b == [b[0]];
      DecodeOneGroup(Encode(b), b);
    } else if |b| == 2 {
      DecodePair(b[0], b[1]);
      assert b == [b[0], b[1]];
      DecodeOneGroup(Encode(b), b);
    } else if |b| >= 3 {
      DecodeEncode(b[3..]);
      DecodeEncodeStep(b);
    }
  }

  lemma DecodeOneGroup(e: string, b: seq<byte>)
    requires |e| == 4 && DecodeQuad(e, true) == Some(b)
    ensures Decode(e) == Some(b)
  {
    assert e[..4] == e;
    assert Decode(e[4..]) == Some([]);
    assert b + [] == b;
  }

  /** Decoding a leading group followed by more groups. */
  lemma DecodeCons(q: string, t: string, head: seq<byte>, rest: seq<byte>)
    requires |q| == 4
    requires DecodeQuad(q, |t| == 0) == Some(head) && Decode(t) == Some(rest)
    ensures Decode(q + t) == Some(head + rest)
  {
    var e := q + t;
    assert e[..4] == q;
    assert e[4..] == t;
    assert DecodeQuad(e[..4], |e| == 4) == Some(head);
    assert Decode(e[4..]) == Some(rest);
  }

  lemma DecodeEncodeStep(b: seq<byte>)
    requires |b| >= 3
    requires Decode(Encode(b[3..])) == Some(b[3..])
    ensures Decode(Encode(b)) == Some(b)
  {
    var q := EncodeTriple(b[0], b[1], b[2]);
    var tail := Encode(b[3..]);
    assert Encode(b) == q + tail;
    DecodeTriple(b[0], b[1], b[2], |tail| == 0);
    DecodeCons(q, tail, [b[0], b[1], b[2]], b[3..]);
    SplitThree(b);
  }

  lemma SplitThree(b: seq<byte>)
    requires |b| >= 3
    ensures [b[0], b[1], b[2]] + b[3..] == b
  {
  }
}
