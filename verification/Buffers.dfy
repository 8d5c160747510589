/** `Segment` (BufferQueue.cpp) and queues of segment contents (BufferQueue.h). */
module Buffers {
  import opened Bytes

  const MAX_SEGMENT_SIZE := 0x8_0000

  class Segment {
    const mData: array<byte>
    var mPos: nat
    var mLimit: nat

    ghost predicate Valid()
      reads this
    {
      mPos <= mLimit <= mData.Length
    }

    /** The octets written and not yet consumed. */
    ghost function Contents(): seq<byte>
      requires Valid()
      reads this, mData
    {
      mData[mPos..mLimit]
    }

    constructor (size: nat)
      requires 1 <= size <= MAX_SEGMENT_SIZE
      ensures Valid() && Contents() == [] && mData.Length == size && mPos == mLimit == 0
      ensures fresh(mData)
    {
      mData := new byte[size](_ => 0);
      mPos, mLimit := 0, 0;
    }

    function Remain(): nat
      requires Valid()
      reads this
    {
      mData.Length - mLimit
    }

    function Size(): nat
      requires Valid()
      reads this
    {
      mLimit - mPos
    }

    /** Takes as much of `data[dp..dp+len]` as fits. */
    method Write(data: array<byte>, dp: nat, len: nat) returns (l: nat)
      requires Valid() && data != mData && dp + len <= data.Length
      modifies this`mLimit, mData
      ensures Valid()
      ensures l == if len <= old(Remain()) then len else old(Remain())
      ensures Contents() == old(Contents()) + data[dp..dp + l]
      ensures mLimit == old(mLimit) + l
    {
      l := if mLimit + len > mData.Length then mData.Length - mLimit else len;
      ghost var before := mData[..mLimit];
      if l > 0 {
        Copy(mData, mLimit, data, dp, l);
        mLimit := mLimit + l;
      }
      assert mData[..mLimit] == before + data[dp..dp + l];
      assert mData[mPos..mLimit] == mData[..mLimit][mPos..];
    }

    /** Ignored when it asks for more than there is. */
    method Consume(size: nat)
      requires Valid()
      modifies this`mPos
      ensures Valid()
      ensures size <= old(Size()) ==> Contents() == old(Contents())[size..]
      ensures size > old(Size()) ==> mPos == old(mPos)
    {
      if mPos + size <= mLimit {
        SubArray(mData, mPos, mLimit - mPos, size, mLimit - mPos - size);
        mPos := mPos + size;
      }
    }

    /** Moves the contents to the front: a forward copy between ranges that may overlap. */
    method Flip()
      requires Valid()
      modifies this`mPos, this`mLimit, mData
      ensures Valid() && Contents() == old(Contents())
      ensures mPos == 0 && mLimit == old(Size())
    {
      if mLimit > 0 {
        var n := mLimit - mPos;
        for i := 0 to n
          invariant mPos == old(mPos) && mLimit == old(mLimit)
          invariant forall k :: 0 <= k < i ==> mData[k] == old(Contents())[k]
          invariant forall k :: mPos + i <= k < mLimit ==> mData[k] == old(mData[k])
        {
          mData[i] := mData[mPos + i];
        }
        mLimit := n;
        mPos := 0;
      }
    }
  }

  /** The octets of a queue of segments, front first. */
  function Flat(q: seq<seq<byte>>): seq<byte> {
    if q == [] then [] else q[0] + Flat(q[1..])
  }

  lemma {:induction false} FlatPush(q: seq<seq<byte>>, s: seq<byte>)
    ensures Flat(q + [s]) == Flat(q) + s
  {
    if q == [] {
      assert q + [s] == [s];
    } else {
      calc {
        Flat(q + [s]);
        { assert (q + [s])[1..] == q[1..] + [s]; }
        q[0] + Flat(q[1..] + [s]);
        { FlatPush(q[1..], s); }
        q[0] + (Flat(q[1..]) + s);
        Flat(q) + s;
      }
    }
  }

  /** Consumes `n` octets of the front segment and drops the segment once it is empty. */
  function ConsumeFront(q: seq<seq<byte>>, n: nat): (r: seq<seq<byte>>)
    requires q != [] && n <= |q[0]|
  {
    if n == |q[0]| then q[1..] else q[0 := q[0][n..]]
  }

  lemma FlatConsumeFront(q: seq<seq<byte>>, n: nat)
    requires q != [] && n <= |q[0]|
    ensures n <= |Flat(q)| && Flat(q)[..n] == q[0][..n]
    ensures Flat(ConsumeFront(q, n)) == Flat(q)[n..]
  {
    if n < |q[0]| {
      assert q[0 := q[0][n..]][1..] == q[1..];
    }
  }
}
