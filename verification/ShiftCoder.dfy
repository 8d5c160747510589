/** The rotating bit-shift coder (ShiftCoder.cpp). */
module ShiftCoder {
  import opened Bytes

  type Amount = s: nat | s < 8

  function RotateOut(d: bv8, shift: Amount): bv8 {
    (d << shift) | (d >> (8 - shift))
  }

  function RotateIn(d: bv8, shift: Amount): bv8 {
    (d >> shift) | (d << (8 - shift))
  }

  lemma RotationsCancel(d: bv8, shift: Amount)
    ensures RotateIn(RotateOut(d, shift), shift) == d
  {
    match shift
    case 0 =>
    case 1 =>
    case 2 =>
    case 3 =>
    case 4 =>
    case 5 =>
    case 6 =>
    case 7 =>
  }

  lemma CountUp(b: bv8)
    requires b != 255
    ensures (b + 1) as int == b as int + 1
  {
  }

  /** An octet's bits. */
  function Bits(d: byte): (b: bv8)
    ensures b as int == d
  {
    if d == 0 then 0 else
      var b := Bits(d - 1);
      CountUp(b);
      b + 1
  }

  /** `(d<<shift)|(d>>(8-shift))` */
  function ShiftOut(d: byte, shift: Amount): byte {
    RotateOut(Bits(d), shift) as byte
  }

  /** `(d>>shift)|(d<<(8-shift))` */
  function ShiftIn(d: byte, shift: Amount): byte {
    RotateIn(Bits(d), shift) as byte
  }

  lemma SameBits(a: bv8, b: bv8)
    requires a as int == b as int
    ensures a == b
  {
  }

  lemma ShiftInOut(d: byte, shift: Amount)
    ensures ShiftIn(ShiftOut(d, shift), shift) == d
  {
    hide RotateIn, RotateOut;
    RotationsCancel(Bits(d), shift);
    SameBits(Bits(ShiftOut(d, shift)), RotateOut(Bits(d), shift));
  }

  /** An octet rotated to the left, one bit at a time: what leaves it on the left comes back on the right. */
  function Rotated(d: byte, n: nat): byte {
    if n == 0 then d
    else
      var r := Rotated(d, n - 1);
      if r < 128 then 2 * r else 2 * r - 255
  }

  lemma OneBit(b: bv8)
    ensures RotateOut(b, 1) == if b < 128 then b + b else b + b + 1
  {
  }

  lemma OneMoreBit(b: bv8, shift: Amount, next: Amount)
    requires next == shift + 1
    ensures RotateOut(b, next) == RotateOut(RotateOut(b, shift), 1)
  {
    if next <= 3 {
      FewBits(b, shift, next);
    } else {
      ManyBits(b, shift, next);
    }
  }

  lemma FewBits(b: bv8, shift: Amount, next: Amount)
    requires next == shift + 1 <= 3
    ensures RotateOut(b, next) == RotateOut(RotateOut(b, shift), 1)
  {
    match next
    case 1 => assert shift == 0;
    case 2 => assert shift == 1;
    case 3 => assert shift == 2;
  }

  lemma ManyBits(b: bv8, shift: Amount, next: Amount)
    requires 3 < next == shift + 1
    ensures RotateOut(b, next) == RotateOut(RotateOut(b, shift), 1)
  {
    match next
    case 4 => assert shift == 3;
    case 5 => assert shift == 4;
    case 6 => assert shift == 5;
    case 7 => assert shift == 6;
  }

  lemma Twice(b: bv8)
    ensures b < 128 <==> b as int < 128
    ensures (b + b) as int == if b < 128 then 2 * (b as int) else 2 * (b as int) - 256
    ensures b >= 128 ==> (b + b + 1) as int == 2 * (b as int) - 255
  {
  }

  /** Shifting out rotates to the left. */
  lemma {:induction false} ShiftOutRotates(d: byte, shift: Amount)
    ensures ShiftOut(d, shift) == Rotated(d, shift)
  {
    if shift > 0 {
      ShiftOutRotates(d, shift - 1);
      var before := RotateOut(Bits(d), shift - 1);
      OneMoreBit(Bits(d), shift - 1, shift);
      OneBit(before);
      Twice(before);
    }
  }

  /** The shift used for octet `i` when octet 0 used `first`. */
  function ShiftAt(first: Amount, i: nat): Amount {
    (first + i) % 8
  }

  /** `if(++shift > 7) shift = 0` */
  lemma ShiftAtNext(first: Amount, i: nat)
    ensures ShiftAt(first, 0) == first
    ensures ShiftAt(first, i + 1) == if ShiftAt(first, i) + 1 > 7 then 0 else ShiftAt(first, i) + 1
  {
  }

  function EncodeLen(len: nat): nat { len + 1 }

  /** What `encode` produces: the first shift, then every octet rotated by a shift that counts up modulo 8. */
  function Shifted(d: seq<byte>, shift: Amount): (e: seq<byte>) {
    [shift] + seq(|d|, i requires 0 <= i < |d| => ShiftOut(d[i], ShiftAt(shift, i)))
  }

  /** What `decode` restores; it refuses a first octet above 7. */
  function Unshifted(e: seq<byte>): (d: seq<byte>)
    requires |e| > 0 && e[0] < 8
  {
    seq(|e| - 1, i requires 0 <= i < |e| - 1 => ShiftIn(e[i + 1], ShiftAt(e[0], i)))
  }

  lemma UnshiftedShifted(d: seq<byte>, shift: Amount)
    ensures |Shifted(d, shift)| == |d| + 1
    ensures Shifted(d, shift)[0] == shift
    ensures Unshifted(Shifted(d, shift)) == d
  {
    hide ShiftIn, ShiftOut, ShiftAt;
    var e := Shifted(d, shift);
    forall i | 0 <= i < |d| ensures Unshifted(e)[i] == d[i] {
      ShiftInOut(d[i], ShiftAt(shift, i));
    }
  }

  /** The octets of `encode`: each is rotated by a shift that counts up from the first one. */
  lemma ShiftedOctets(d: seq<byte>, shift: Amount, i: nat)
    requires i < |d|
    ensures |Shifted(d, shift)| == |d| + 1 && Shifted(d, shift)[1 + i] == Rotated(d[i], (shift + i) % 8)
  {
    hide ShiftOut;
    ShiftOutRotates(d[i], ShiftAt(shift, i));
  }

  lemma RotatedZero(n: nat)
    ensures Rotated(0, n) == 0
  {
  }

  /** `rand()%8` */
  method RandomShift() returns (shift: Amount)
  {
    shift :| 0 <= shift < 8;
  }

  method Encode(data: array<byte>, dp: nat, len: nat, out: array<byte>, op: nat, size: nat)
    returns (n: nat, ghost first: Amount)
    requires data != out
    requires dp + len <= data.Length && op + size <= out.Length
    modifies out
    ensures out[..op] == old(out[..op])
    ensures size <= len ==> n == 0
    ensures len < size ==> n == len + 1 && out[op..op + n] == Shifted(data[dp..dp + len], first)
  {
    hide ShiftOut, ShiftAt;
    var shift: nat := RandomShift();
    first := shift;
    if size <= len {
      return 0, first;
    }
    out[op] := shift;
    ghost var d := data[dp..dp + len];
    var j := 1;
    ShiftAtNext(first, 0);
    for i := 0 to len
      invariant j == i + 1 && shift == ShiftAt(first, i)
      invariant out[..op] == old(out[..op])
      invariant out[op] == first
      invariant forall k :: 0 <= k < i ==> out[op + 1 + k] == ShiftOut(d[k], ShiftAt(first, k))
    {
      ShiftAtNext(first, i);
      out[op + j] := ShiftOut(data[dp + i], shift);
      shift := shift + 1;
      if shift > 7 {
        shift := 0;
      }
      j := j + 1;
    }
    n := len + 1;
    forall k | 0 <= k < n ensures out[op..op + n][k] == Shifted(d, first)[k] {
      assert k > 0 ==> out[op + 1 + (k - 1)] == ShiftOut(d[k - 1], ShiftAt(first, k - 1));
    }
  }

  /** Refuses with 0 a first octet above 7; an empty input gives -1. */
  method Decode(data: array<byte>, dp: nat, len: nat, out: array<byte>, size: nat) returns (n: int)
    requires data != out
    requires dp < data.Length && dp + len <= data.Length && size <= out.Length
    requires len <= size
    modifies out
    ensures data[dp] > 7 ==> n == 0
    ensures data[dp] <= 7 ==> n == len - 1
    ensures data[dp] <= 7 && len > 0 ==> out[..n] == Unshifted(data[dp..dp + len])
  {
    hide ShiftIn, ShiftAt;
    var shift: nat := data[dp];
    if shift > 7 {
      return 0;
    }
    if len == 0 {
      return -1;
    }
    ghost var e := data[dp..dp + len];
    ghost var first: Amount := e[0];
    var j: int := 0;
    ShiftAtNext(first, 0);
    for i := 1 to len
      invariant j == i - 1 && shift == ShiftAt(first, j)
      invariant forall k :: 0 <= k < j ==> out[k] == ShiftIn(e[k + 1], ShiftAt(first, k))
    {
      ShiftAtNext(first, j);
      out[j] := ShiftIn(data[dp + i], shift);
      shift := shift + 1;
      if shift > 7 {
        shift := 0;
      }
      j := j + 1;
    }
    n := len - 1;
    assert out[..n] == Unshifted(e);
  }
}
