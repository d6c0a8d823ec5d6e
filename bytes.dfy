/** Octets, as the codec's byte strings hold them, and the bitwise exclusive
    or that CBC mode applies to them. */
module Bytes {

  newtype byte = x: int | 0 <= x < 256

  function Pow2(p: nat): (r: nat)
    ensures r >= 1
  {
    if p == 0 then 1 else 2 * Pow2(p - 1)
  }

  /** Bitwise exclusive or of two naturals, bit by bit from the lowest. */
  function Xor(a: nat, b: nat): (r: nat)
    decreases a + b
  {
    if a == 0 then b
    else if b == 0 then a
    else 2 * Xor(a / 2, b / 2) + (a % 2 + b % 2) % 2
  }

  /** The lowest bit of `a xor b` is the sum of the lowest bits modulo 2 and
      the remaining bits are the xor of the remaining bits. */
  lemma {:induction false} XorSplit(a: nat, b: nat)
    ensures Xor(a, b) / 2 == Xor(a / 2, b / 2)
    ensures Xor(a, b) % 2 == (a % 2 + b % 2) % 2
  {
    if a == 0 {
      assert Xor(0, b / 2) == b / 2;
    } else if b == 0 {
      assert Xor(a / 2, 0) == a / 2 by { if a / 2 != 0 {} }
    }
  }

  lemma {:induction false} XorSelf(b: nat)
    ensures Xor(b, b) == 0
    decreases b
  {
    if b != 0 { XorSelf(b / 2); }
  }

  /** Exclusive or with the same value twice is the identity. */
  lemma {:induction false} XorCancel(a: nat, b: nat)
    ensures Xor(Xor(a, b), b) == a
    decreases a + b
  {
    var x := Xor(a, b);
    if a == 0 {
      XorSelf(b);
    } else if b != 0 {
      XorSplit(a, b);
      XorCancel(a / 2, b / 2);
      XorSplit(x, b);
      var y := Xor(x, b);
      ParityCancel(x % 2, a % 2, b % 2);
      assert y == 2 * (a / 2) + a % 2;
    }
  }

  /** Adding the same bit twice modulo 2 gives back the first bit. */
  lemma ParityCancel(p: int, u: int, v: int)
    requires 0 <= u < 2 && 0 <= v < 2 && p == (u + v) % 2
    ensures (p + v) % 2 == u
  {
  }

  /** Exclusive or of two p-bit values is a p-bit value. */
  lemma {:induction false} XorBelow(a: nat, b: nat, p: nat)
    requires a < Pow2(p) && b < Pow2(p)
    ensures Xor(a, b) < Pow2(p)
    decreases p
  {
    if a != 0 && b != 0 {
      XorBelow(a / 2, b / 2, p - 1);
    }
  }

  function XorByte(a: byte, b: byte): (r: byte)
  {
    XorBelow(a as nat, b as nat, 8);
    Xor(a as nat, b as nat) as byte
  }

  lemma XorByteCancel(a: byte, b: byte)
    ensures XorByte(XorByte(a, b), b) == a
  {
    XorCancel(a as nat, b as nat);
  }
}
