/** AES-256 in CBC mode (section 6.2 of NIST SP 800-38A) over an abstract
    block cipher: `Cipher(algorithms.AES(key), modes.CBC(iv))`. The block
    cipher itself is a pair of functions supplied by the caller. */
module Cbc {
  import opened Wrappers
  import opened Bytes

  /** AES block and IV length, and the AES-256 key length, in bytes. */
  const BlockLen: nat := 16
  const KeyLen: nat := 32

  type Block = b: seq<byte> | |b| == BlockLen witness seq(16, _ => 0)
  type Key = k: seq<byte> | |k| == KeyLen witness seq(32, _ => 0)

  /** A block cipher: forward and inverse permutation of one block under a key. */
  datatype BlockCipher = BlockCipher(encrypt: (Key, Block) -> Block, decrypt: (Key, Block) -> Block)

  /** The block cipher's decryption undoes its encryption under every key. */
  ghost predicate Inverts(c: BlockCipher)
  {
    forall k: Key, b: Block :: c.decrypt(k, c.encrypt(k, b)) == b
  }

  function XorBlock(a: Block, b: Block): (r: Block)
    ensures forall i :: 0 <= i < BlockLen ==> r[i] == XorByte(a[i], b[i])
  {
    seq(BlockLen, i requires 0 <= i < BlockLen => XorByte(a[i], b[i]))
  }

  lemma XorBlockCancel(a: Block, b: Block)
    ensures XorBlock(XorBlock(a, b), b) == a
  {
    var r := XorBlock(XorBlock(a, b), b);
    forall i | 0 <= i < BlockLen ensures r[i] == a[i] {
      XorByteCancel(a[i], b[i]);
    }
  }

  /** CBC encryption: each plaintext block is xored with the previous
      ciphertext block (the IV for the first) and then enciphered. */
  function Encrypt(c: BlockCipher, key: Key, prev: Block, p: seq<byte>): (r: seq<byte>)
    requires |p| % BlockLen == 0
    ensures |r| == |p|
    decreases |p|
  {
    if |p| == 0 then []
    else
      var ct := c.encrypt(key, XorBlock(p[..BlockLen], prev));
      ct + Encrypt(c, key, ct, p[BlockLen..])
  }

  /** CBC decryption of block-aligned data: each block is deciphered and
      xored with the previous ciphertext block. */
  function DecryptAligned(c: BlockCipher, key: Key, prev: Block, ct: seq<byte>): (r: seq<byte>)
    requires |ct| % BlockLen == 0
    ensures |r| == |ct|
    decreases |ct|
  {
    if |ct| == 0 then []
    else
      var block: Block := ct[..BlockLen];
      XorBlock(c.decrypt(key, block), prev) + DecryptAligned(c, key, block, ct[BlockLen..])
  }

  /** `decryptor.update(ct) + decryptor.finalize()`: None where finalize raises
      because the data is not a whole number of blocks. */
  function Decrypt(c: BlockCipher, key: Key, iv: Block, ct: seq<byte>): (r: Option<seq<byte>>)
    ensures r.Some? <==> |ct| % BlockLen == 0
    ensures r.Some? ==> |r.value| == |ct|
  {
    if |ct| % BlockLen != 0 then None else Some(DecryptAligned(c, key, iv, ct))
  }

  /** CBC decryption undoes CBC encryption under the same key and IV when the
      block cipher's decryption undoes its encryption. */
  lemma {:induction false} DecryptEncrypt(c: BlockCipher, key: Key, prev: Block, p: seq<byte>)
    requires Inverts(c)
    requires |p| % BlockLen == 0
    ensures DecryptAligned(c, key, prev, Encrypt(c, key, prev, p)) == p
    decreases |p|
  {
    if |p| != 0 {
      var x := XorBlock(p[..BlockLen], prev);
      var ct := c.encrypt(key, x);
      var rest := Encrypt(c, key, ct, p[BlockLen..]);
      var e: seq<byte> := ct + rest;
      assert e[..BlockLen] == ct && e[BlockLen..] == rest;
      assert c.decrypt(key, ct) == x;
      XorBlockCancel(p[..BlockLen], prev);
      DecryptEncrypt(c, key, ct, p[BlockLen..]);
      assert p[..BlockLen] + p[BlockLen..] == p;
    }
  }
}
