/** Octets, the two-octet big-endian length fields of the codec, and `memcpy`. */
module Bytes {
  type byte = b: int | 0 <= b < 256

  type word = w: nat | w < 0x1_0000

  /** Largest section of a framed parcel (Cipher.h:12). */
  const MAX_SECTION_SIZE: nat := 1024

  /** `(l>>8)&0xFF` */
  function Hi(l: nat): byte { l / 256 % 256 }

  /** `l&0xFF` */
  function Lo(l: nat): byte { l % 256 }

  /** `(hi<<8)|lo` */
  function Word(hi: byte, lo: byte): (w: nat)
    ensures w < 0x1_0000
  {
    hi * 256 + lo
  }

  lemma WordOfHiLo(l: nat)
    requires l < 0x1_0000
    ensures Word(Hi(l), Lo(l)) == l
  {
  }

  /** A part of a part of a buffer. */
  lemma SubArray(data: array<byte>, p: nat, len: nat, at: nat, l: nat)
    requires p + len <= data.Length && at + l <= len
    ensures data[p..p + len][at..at + l] == data[p + at..p + at + l]
  {
    var whole, part := data[p..p + len], data[p + at..p + at + l];
    assert forall k | 0 <= k < l :: whole[at + k] == part[k];
  }

  /** `memcpy(dst+dp, src+sp, n)` between two different buffers. */
  method Copy(dst: array<byte>, dp: nat, src: array<byte>, sp: nat, n: nat)
    requires dst != src
    requires dp + n <= dst.Length && sp + n <= src.Length
    modifies dst
    ensures dst[..dp + n] == old(dst[..dp] + src[sp..sp + n])
    ensures dst[dp + n..] == old(dst[dp + n..])
  {
    for i := 0 to n
      invariant dst[..dp + i] == old(dst[..dp] + src[sp..sp + i])
      invariant dst[dp + n..] == old(dst[dp + n..])
    {
      dst[dp + i] := src[sp + i];
    }
  }
}
