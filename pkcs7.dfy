/** PKCS#7 padding (section 6.3 of RFC 5652) to the 128-bit AES block, as
    `padding.PKCS7(128)` pads and unpads in the codec. */
module Pkcs7 {
  import opened Wrappers
  import opened Bytes

  /** `algorithms.AES.block_size`, in bits, and the same in bytes. */
  const BlockSizeBits: nat := 128
  const BlockBytes: nat := BlockSizeBits / 8

  /** The padding for a message of length `n`: between 1 and 16 bytes, each
      equal to the number of bytes added. */
  function PadLength(n: nat): (k: nat)
    ensures 1 <= k <= BlockBytes
    ensures (n + k) % BlockBytes == 0
  {
    var k := BlockBytes - n % BlockBytes;
    assert n + k == (n / BlockBytes + 1) * BlockBytes;
    k
  }

  /** `padder.update(data) + padder.finalize()`. */
  function Pad(data: seq<byte>): (r: seq<byte>)
    ensures |r| % BlockBytes == 0
    ensures |data| < |r| <= |data| + BlockBytes
    ensures r[..|data|] == data
    ensures forall i :: |data| <= i < |r| ==> r[i] as int == |r| - |data|
  {
    var k := PadLength(|data|);
    data + seq(k, _ => k as byte)
  }

  /** A buffer whose last byte k is between 1 and 16 and whose last k bytes
      all equal k; the unpadder accepts exactly these. */
  predicate WellPadded(d: seq<byte>)
  {
    && |d| > 0
    && |d| % BlockBytes == 0
    && 1 <= d[|d| - 1] as int <= BlockBytes
    && forall i :: |d| - d[|d| - 1] as int <= i < |d| ==> d[i] == d[|d| - 1]
  }

  /** `unpadder.update(d) + unpadder.finalize()`: None where the unpadder raises
      "Invalid padding bytes". */
  function Unpad(d: seq<byte>): (r: Option<seq<byte>>)
    ensures r.Some? <==> WellPadded(d)
    ensures r.Some? ==> |d| - BlockBytes <= |r.value| < |d| && d[..|r.value|] == r.value
    ensures r.Some? ==> forall i :: |r.value| <= i < |d| ==> d[i] as int == |d| - |r.value|
  {
    if |d| == 0 || |d| % BlockBytes != 0 then None
    else
      var k := d[|d| - 1] as int;
      if k < 1 || k > BlockBytes then None
      else if forall i | |d| - k <= i < |d| :: d[i] == d[|d| - 1] then Some(d[..|d| - k])
      else None
  }

  /** Unpadding undoes padding. */
  lemma UnpadPad(data: seq<byte>)
    ensures Unpad(Pad(data)) == Some(data)
  {
    var p := Pad(data);
    var k := |p| - |data|;
    assert p[|p| - 1] as int == k;
    assert p[..|p| - k] == data;
  }
}
