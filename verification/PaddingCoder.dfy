/** The random padding coder (PaddingCoder.cpp). */
module PaddingCoder {
  import opened Bytes

  /** Largest padding `encode` may draw for an input of the given length. */
  function PaddingRange(len: nat): (range: nat)
    ensures if len > 1024 then range == 2 else len + range == 1024
  {
    if len > MAX_SECTION_SIZE then 2 else MAX_SECTION_SIZE - len
  }

  function EncodeLen(len: nat): nat { PaddingRange(len) + len }

  /** Whether `encode` may draw this padding when it has `size` octets of output. */
  predicate PaddingAllowed(len: nat, size: nat, padding: nat)
    requires len + 3 < size
  {
    var range := if PaddingRange(len) > size - len - 2 then size - len - 2 else PaddingRange(len);
    if range > 0 then 1 <= padding <= range else padding == 0
  }

  /** What `encode` produces: the padding length, the padding, the data. */
  function Padded(d: seq<byte>, pad: seq<byte>): (e: seq<byte>) {
    [Hi(|pad|), Lo(|pad|)] + pad + d
  }

  predicate HasPadding(e: seq<byte>) {
    |e| >= 2 && |e| >= 2 + Word(e[0], e[1])
  }

  /** What `decode` restores. */
  function Unpadded(e: seq<byte>): seq<byte>
    requires HasPadding(e)
  {
    e[2 + Word(e[0], e[1])..]
  }

  lemma UnpaddedPadded(d: seq<byte>, pad: seq<byte>)
    requires |pad| < 0x1_0000
    ensures var e := Padded(d, pad);
      |e| == 2 + |pad| + |d| && e[0] as int * 0x100 + e[1] == |pad| && e[2..2 + |pad|] == pad && e[2 + |pad|..] == d
    ensures HasPadding(Padded(d, pad)) && Unpadded(Padded(d, pad)) == d
  {
    WordOfHiLo(|pad|);
  }

  method RandomByte() returns (b: byte) {
    b :| 0 <= b < 256;
  }

  method Encode(data: array<byte>, dp: nat, len: nat, out: array<byte>, op: nat, size: nat)
    returns (n: nat, ghost pad: seq<byte>)
    requires data != out
    requires dp + len <= data.Length && op + size <= out.Length
    modifies out
    ensures out[..op] == old(out[..op])
    ensures size <= len + 3 ==> n == 0
    ensures len + 3 < size ==>
      && PaddingAllowed(len, size, |pad|)
      && n == 2 + |pad| + len <= size
      && out[op..op + n] == Padded(data[dp..dp + len], pad)
  {
    pad := [];
    if len + 3 >= size {
      return 0, pad;
    }
    var padding := DrawPadding(len, size);
    var t := padding + 2;
    pad := WriteHeader(out, op, padding);
    ghost var front := out[..op + t];
    Copy(out, op + t, data, dp, len);
    n := len + t;
    assert out[..op + n] == front + data[dp..dp + len];
    assert out[op..op + n] == out[..op + n][op..];
    assert out[..op] == out[..op + n][..op];
  }

  /** `rand()%range+1`, or 0 when there is no range. */
  method DrawPadding(len: nat, size: nat) returns (padding: nat)
    requires len + 3 < size
    ensures PaddingAllowed(len, size, padding)
  {
    var range := PaddingRange(len);
    if range > size - len - 2 {
      range := size - len - 2;
    }
    padding := 0;
    if range > 0 {
      padding :| 1 <= padding <= range;
    }
  }

  /** The two length octets and the `rand()%256` loop. */
  method WriteHeader(out: array<byte>, op: nat, padding: nat) returns (ghost pad: seq<byte>)
    requires op + 2 + padding <= out.Length
    modifies out
    ensures |pad| == padding
    ensures out[..op + 2 + padding] == old(out[..op]) + [Hi(padding), Lo(padding)] + pad
  {
    out[op] := Hi(padding);
    out[op + 1] := Lo(padding);
    ghost var header := out[..op + 2];
    for i := 2 to padding + 2
      invariant out[..op + 2] == header
    {
      out[op + i] := RandomByte();
    }
    pad := out[op + 2..op + 2 + padding];
    assert out[..op + 2 + padding] == header + pad;
  }

  /** Refuses with 0 an input shorter than its own padding. */
  method Decode(data: array<byte>, dp: nat, len: nat, out: array<byte>, size: nat) returns (n: nat)
    requires data != out
    requires dp + 2 <= data.Length && dp + len <= data.Length && size <= out.Length
    requires len <= size
    modifies out
    ensures !HasPadding(data[dp..dp + len]) ==> n == 0
    ensures HasPadding(data[dp..dp + len]) ==>
      n == |Unpadded(data[dp..dp + len])| && out[..n] == Unpadded(data[dp..dp + len])
  {
    var padding := Word(data[dp], data[dp + 1]);
    var l := len - padding - 2;
    if l < 0 {
      return 0;
    }
    SubArray(data, dp, len, 2 + padding, l);
    Copy(out, 0, data, dp + padding + 2, l);
    n := l;
  }
}
