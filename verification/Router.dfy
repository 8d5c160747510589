/** Datagrams shared between sessions and the Router, and the Router's write queue (Router.cpp, BufferQueue.h). */
module Routers {
  import opened Bytes

  /**
   * A BufferSegment holding one packet (or, in a forward queue, one payload). The octets are never rewritten;
   * `freed` records `delete`, which is legal once.
   */
  class TCPDatagram {
    const packet: seq<byte>
    const mSeq: nat
    const mAck: nat
    const mFlag: byte
    const mLength: nat
    /** Who built it. */
    ghost const owner: object
    var mPos: nat
    var mLimit: nat
    var mMarkPos: nat
    var mMarkLimit: nat
    var mBuffering: bool
    var mReleaseAfterBuffering: bool
    var mAbort: bool
    var mRetry: nat
    ghost var freed: bool

    constructor (packet: seq<byte>, mSeq: nat, mAck: nat, mFlag: byte, mLength: nat, ghost owner: object)
      ensures this.packet == packet && this.mSeq == mSeq && this.mAck == mAck
      ensures this.mFlag == mFlag && this.mLength == mLength && this.owner == owner
      ensures mPos == 0 && mLimit == |packet| && mMarkPos == 0 && mMarkLimit == 0 && mRetry == 0
      ensures !mBuffering && !mReleaseAfterBuffering && !mAbort && !freed
    {
      this.packet, this.mSeq, this.mAck, this.mFlag, this.mLength := packet, mSeq, mAck, mFlag, mLength;
      this.owner := owner;
      mPos, mLimit, mMarkPos, mMarkLimit := 0, |packet|, 0, 0;
      mBuffering, mReleaseAfterBuffering, mAbort, mRetry := false, false, false, 0;
      freed := false;
    }

    /** What is left to read. */
    ghost function Rest(): seq<byte>
      requires mPos <= mLimit <= |packet|
      reads this`mPos, this`mLimit
    {
      packet[mPos..mLimit]
    }

    /** What was left when it was marked. */
    ghost function Kept(): seq<byte>
      requires mMarkPos <= mMarkLimit <= |packet|
      reads this`mMarkPos, this`mMarkLimit
    {
      packet[mMarkPos..mMarkLimit]
    }

    method Mark()
      requires mPos <= mLimit <= |packet|
      modifies this`mMarkPos, this`mMarkLimit
      ensures mMarkPos == mPos && mMarkLimit == mLimit && Kept() == Rest()
    {
      mMarkPos := mPos;
      mMarkLimit := mLimit;
    }

    method Consume(n: nat)
      requires mPos + n <= mLimit <= |packet|
      modifies this`mPos
      ensures mPos == old(mPos) + n && Rest() == old(Rest())[n..]
    {
      SliceRest(packet, mPos, n, mLimit);
      mPos := mPos + n;
    }

    /** However much of it was consumed, what was left when it was marked is left again. */
    method Resume()
      requires mMarkPos <= mMarkLimit <= |packet|
      modifies this`mPos, this`mLimit
      ensures mPos == mMarkPos && mLimit == mMarkLimit && Rest() == Kept()
    {
      mPos := mMarkPos;
      mLimit := mMarkLimit;
    }

    /** `delete` */
    method Delete()
      requires !freed
      modifies this`freed
      ensures freed
    {
      freed := true;
    }

    /** What is left to write; never nothing while the datagram is allocated. */
    function Size(): (n: nat)
      requires Sound()
      reads this`mPos, this`mLimit, this`mMarkPos, this`mMarkLimit
      reads this`mBuffering, this`mReleaseAfterBuffering, this`mAbort
      ensures 0 < n <= |packet|
    {
      mLimit - mPos
    }

    /** All of the packet is still to be read. */
    ghost predicate Whole()
      reads this`mPos, this`mLimit
    {
      mPos == 0 && mLimit == |packet|
    }

    /** Marked whole before it was queued, with something left to write. */
    ghost predicate Marked()
      reads this`mPos, this`mLimit, this`mMarkPos, this`mMarkLimit
    {
      mPos < mLimit == |packet| && mMarkPos == 0 && mMarkLimit == |packet|
    }

    /** How the flags and the read window of an allocated datagram go together. */
    ghost predicate Sound()
      reads this`mPos, this`mLimit, this`mMarkPos, this`mMarkLimit
      reads this`mBuffering, this`mReleaseAfterBuffering, this`mAbort
    {
      && packet != []
      && (mBuffering ==> Marked() && (mAbort ==> mReleaseAfterBuffering))
      && (!mBuffering ==> Whole() && !mAbort)
    }

    lemma SoundQueued()
      requires mPos == 0 < mLimit == |packet| && mMarkPos == 0 && mMarkLimit == |packet| && mBuffering && !mAbort
      ensures Sound()
    {
    }

    lemma SoundWhole()
      requires mPos == 0 < mLimit == |packet| && !mBuffering && !mAbort
      ensures Sound()
    {
    }

    lemma Soundly()
      requires Sound()
      ensures packet != [] && (!mBuffering ==> mPos == 0 && mLimit == |packet| && !mAbort)
    {
    }
  }

  lemma WholeSlice(s: seq<byte>)
    ensures s[0..|s|] == s
  {
  }

  lemma SliceMore(s: seq<byte>, p: nat, w: nat)
    requires p + w <= |s|
    ensures s[..p + w] == s[..p] + s[p..p + w]
  {
  }

  lemma SliceRest(s: seq<byte>, p: nat, w: nat, l: nat)
    requires p + w <= l <= |s|
    ensures s[p..l][w..] == s[p + w..l]
  {
  }

  ghost predicate Distinct(q: seq<TCPDatagram>) {
    forall i, j :: 0 <= i < j < |q| ==> q[i] != q[j]
  }

  lemma InPush(q: seq<TCPDatagram>, x: TCPDatagram)
    ensures forall s :: s in q + [x] <==> s in q || s == x
    ensures Distinct(q) && x !in q ==> Distinct(q + [x])
  {
  }

  lemma InPop(q: seq<TCPDatagram>)
    requires q != [] && Distinct(q)
    ensures forall s :: s in q[1..] <==> s in q && s != q[0]
    ensures Distinct(q[1..])
  {
    assert q == [q[0]] + q[1..];
  }

  /** A datagram that left the queue, the octets of it that the tun device took, and whether it was aborted. */
  datatype Frame = Frame(datagram: TCPDatagram, octets: seq<byte>, aborted: bool) {
    /** All of the packet, or the part of it written before it was aborted. */
    ghost predicate Cut() {
      octets <= datagram.packet && (octets == datagram.packet || aborted)
    }
  }

  class Router {
    var mData: seq<TCPDatagram>
    var mWriteEvent: bool
    /** Every datagram ever built to be written to the tun device. */
    ghost var born: set<TCPDatagram>
    /** What the tun device took: whole frames, then the front of the queue so far. */
    ghost var tun: seq<byte>
    ghost var frames: seq<Frame>
    /** What the tun device answered to every write. */
    ghost var took: seq<int>

    /** A datagram is in the queue exactly while it is marked buffering, once, and it is allocated. */
    ghost predicate Flagged()
      reads this`mData, this`born, born`mPos, born`mLimit, born`mMarkPos, born`mMarkLimit
      reads born`mBuffering, born`mReleaseAfterBuffering, born`mAbort, born`freed
    {
      && Distinct(mData)
      && (forall s <- mData :: s in born && !s.freed)
      && (forall s <- born | !s.freed :: s.Sound() && (s.mBuffering <==> s in mData))
    }

    ghost predicate Valid()
      reads this`mData, this`born, this`tun, this`frames, mData`mPos
      reads born`mPos, born`mLimit, born`mMarkPos, born`mMarkLimit
      reads born`mBuffering, born`mReleaseAfterBuffering, born`mAbort, born`freed
    {
      Flagged() && Emission()
    }

    constructor ()
      ensures Valid() && mData == [] && !mWriteEvent && born == {} && frames == []
    {
      mData, mWriteEvent, born := [], false, {};
      tun, frames, took := [], [], [];
    }

    /** Only the front of the queue is partly written; frames leave whole unless aborted. */
    ghost predicate Emission()
      reads this`mData, this`tun, this`frames, mData`mPos
    {
      && tun == Octets(frames) + Partial()
      && (forall i :: 0 < i < |mData| ==> mData[i].mPos == 0)
      && (forall f <- frames :: f.Cut())
    }

    /** Everything ever queued, in order: what left, and what is still queued. */
    ghost function Passed(): seq<TCPDatagram>
      reads this`mData, this`frames
    {
      Datagrams(frames) + mData
    }

    /**
     * What the tun device took: of every packet that left the queue all or, aborted, a part, in the order queued, and
     * then the first octets of the front. With nothing aborted that is a prefix of all packets queued.
     */
    lemma TunTook()
      requires Valid()
      ensures tun == Octets(frames) + Partial() && (mData == [] ==> Partial() == [])
      ensures |frames| <= |Passed()| && mData == Passed()[|frames|..]
      ensures forall i :: 0 <= i < |frames| ==> frames[i].datagram == Passed()[i] && frames[i].Cut()
      ensures mData != [] ==> Partial() <= mData[0].packet
      ensures (forall f <- frames :: !f.aborted) ==> tun <= Joined(Passed())
    {
      hide Router.Flagged, Octets, Joined;
      JoinedMore(Datagrams(frames), mData);
      if forall f <- frames :: !f.aborted {
        WholeFrames(frames);
        JoinedFront(mData, Partial());
      }
    }

    ghost function Partial(): seq<byte>
      reads this`mData, mData`mPos
    {
      if mData == [] || mData[0].mPos > |mData[0].packet| then [] else mData[0].packet[..mData[0].mPos]
    }

    /** A datagram not freed has something left to write. */
    lemma SoundWhileBorn(segment: TCPDatagram)
      requires Valid() && segment in born && !segment.freed
      ensures segment.mPos < segment.mLimit <= |segment.packet|
    {
      hide Router.Emission;
    }

    /** A new datagram, not queued yet. */
    ghost method Adopt(segment: TCPDatagram)
      requires Valid() && segment !in mData
      requires segment.Sound() && !segment.mBuffering && !segment.freed
      modifies this`born
      ensures Valid() && born == old(born) + {segment}
    {
      born := born + {segment};
    }

    /** Puts a packet not yet read at the end of the queue. */
    method Push(segment: TCPDatagram)
      requires Emission() && segment.mPos == 0
      modifies this`mData
      ensures Emission() && mData == old(mData) + [segment]
    {
      hide Octets;
      mData := mData + [segment];
    }

    /** `onSyncEvent`: queues a packet unless it is queued already, aborted or empty. */
    method OnSyncEvent(segment: TCPDatagram) returns (ok: bool)
      requires Valid() && segment in born && !segment.freed
      modifies this`mData, this`mWriteEvent, segment`mBuffering, segment`mMarkPos, segment`mMarkLimit
      ensures Valid()
      ensures ok == !old(segment.mBuffering)
      ensures ok ==> mData == old(mData) + [segment] && segment.mBuffering
      ensures !ok ==> mData == old(mData) && segment.mBuffering
      ensures mWriteEvent == (old(mWriteEvent) || ok)
    {
      hide Router.Emission, Distinct, TCPDatagram.Sound;
      InPush(mData, segment);
      segment.Soundly();
      if segment.mLimit - segment.mPos > 0 && !segment.mBuffering && !segment.mAbort {
        Push(segment);
        segment.mBuffering := true;
        segment.Mark();
        mWriteEvent := true;
        segment.SoundQueued();
        return true;
      }
      return false;
    }

    /** `write` on the tun device: nothing, an error, or some of the octets offered. */
    method Write(size: nat) returns (w: int)
      modifies this`took
      ensures w <= size && took == old(took) + [w]
    {
      w :| w <= size;
      took := took + [w];
    }

    /** Takes the front off the queue, of which the tun device took `octets`. */
    method Pop(ghost octets: seq<byte>)
      requires Emission() && mData != [] && octets == Partial()
      requires octets == mData[0].packet || mData[0].mAbort
      modifies this`mData, this`frames
      ensures Emission() && mData == old(mData)[1..] && Passed() == old(Passed())
      ensures frames == old(frames) + [Frame(old(mData)[0], octets, old(mData)[0].mAbort)]
    {
      hide Octets, Datagrams;
      OctetsPush(frames, Frame(mData[0], octets, mData[0].mAbort));
      DatagramsPush(frames, Frame(mData[0], octets, mData[0].mAbort), mData);
      frames := frames + [Frame(mData[0], octets, mData[0].mAbort)];
      mData := mData[1..];
    }

    lemma Front()
      requires Valid() && mData != []
      ensures mData[0] in born && mData[0].Marked() && !mData[0].freed
      ensures mData[0].mAbort ==> mData[0].mReleaseAfterBuffering
      ensures forall s :: s in mData[1..] <==> s in mData && s != mData[0]
      ensures Distinct(mData[1..])
    {
      hide Router.Emission;
      assert mData[0] in mData;
      InPop(mData);
    }

    lemma NoneFreed()
      requires Valid()
      ensures forall s <- mData :: !s.freed
    {
    }

    /** Takes an aborted datagram off the queue without writing any more of it. */
    method PopAborted(segment: TCPDatagram)
      requires Valid() && mData != [] && segment == mData[0] && segment.mAbort
      modifies this`mData, this`frames, segment`mBuffering, segment`freed
      ensures Valid() && mData == old(mData)[1..] && Passed() == old(Passed())
      ensures frames == old(frames) + [Frame(segment, old(Partial()), true)]
      ensures segment.freed && !segment.mBuffering
    {
      hide Router.Emission, Router.Passed, Router.Partial, Distinct, TCPDatagram.Sound;
      Front();
      Pop(Partial());
      segment.mBuffering := false;
      if segment.mReleaseAfterBuffering {
        segment.Delete();
      }
    }

    /** The tun device took some of the front. */
    method WriteSome(segment: TCPDatagram, w: nat)
      requires Valid() && mData != [] && segment == mData[0]
      requires 0 < w < segment.mLimit - segment.mPos
      modifies this`tun, segment`mPos
      ensures Valid() && segment.mPos == old(segment.mPos) + w < segment.mLimit && |tun| == |old(tun)| + w
    {
      hide Router.Emission, Distinct;
      Front();
      WriteUpTo(segment, w);
    }

    /** All but `x` go together with the queue, which does not hold it. */
    ghost predicate FlaggedBut(x: TCPDatagram)
      reads this`mData, this`born, born`mPos, born`mLimit, born`mMarkPos, born`mMarkLimit
      reads born`mBuffering, born`mReleaseAfterBuffering, born`mAbort, born`freed
    {
      && Distinct(mData)
      && (forall s <- mData :: s in born && !s.freed && s != x)
      && (forall s <- born | !s.freed && s != x :: s.Sound() && (s.mBuffering <==> s in mData))
    }

    /** A datagram that left the queue is whole again, or deleted. */
    method Restore(segment: TCPDatagram)
      requires FlaggedBut(segment) && Emission() && segment in born && !segment.freed && !segment.mAbort
      requires segment.packet != [] && segment.mMarkPos == 0 && segment.mMarkLimit == |segment.packet|
      modifies segment`mPos, segment`mLimit, segment`mBuffering, segment`freed
      ensures Valid() && (segment.freed <==> segment.mReleaseAfterBuffering)
      ensures segment.mPos <= segment.mLimit <= |segment.packet| && segment.Rest() == segment.packet
    {
      hide Router.Emission, Distinct, TCPDatagram.Sound;
      WholeSlice(segment.packet);
      segment.Resume();
      if segment.mReleaseAfterBuffering {
        segment.Delete();
      } else {
        segment.mBuffering := false;
        segment.SoundWhole();
      }
    }

    /** The tun device took the rest of the front: it leaves the queue, whole again or deleted. */
    method WriteRest(segment: TCPDatagram)
      requires Valid() && mData != [] && segment == mData[0] && !segment.mAbort
      modifies this`mData, this`frames, this`tun
      modifies segment`mPos, segment`mLimit, segment`mBuffering, segment`freed
      ensures Valid() && mData == old(mData)[1..] && Passed() == old(Passed())
      ensures frames == old(frames) + [Frame(segment, segment.packet, false)]
      ensures segment.freed <==> segment.mReleaseAfterBuffering
      ensures segment.mPos <= segment.mLimit <= |segment.packet| && segment.Rest() == segment.packet
      ensures |tun| == |old(tun)| + old(segment.mLimit) - old(segment.mPos)
    {
      hide Router.Emission, Router.Passed, Router.Partial, Distinct, TCPDatagram.Sound;
      Front();
      WriteUpTo(segment, segment.mLimit - segment.mPos);
      WholeSlice(segment.packet);
      Pop(segment.packet);
      Restore(segment);
    }

    /** `w` more octets of the front are written and consumed. */
    method WriteUpTo(segment: TCPDatagram, w: nat)
      requires Emission() && mData != [] && segment == mData[0] && segment.Marked() && segment !in mData[1..]
      requires w <= segment.mLimit - segment.mPos
      modifies this`tun, segment`mPos
      ensures segment.mPos == old(segment.mPos) + w <= segment.mLimit && |tun| == |old(tun)| + w
      ensures Emission() && Partial() == segment.packet[..segment.mPos]
    {
      hide Octets;
      ghost var p := segment.mPos;
      ghost var took := segment.packet[p..p + w];
      SliceMore(segment.packet, p, w);
      assert forall i :: 0 < i < |mData| ==> mData[i] in mData[1..];
      tun := tun + took;
      segment.Consume(w);
    }

    /** The octets the tun device has of a datagram that leaves after `octets` of it: no more once it is aborted. */
    ghost function Written(segment: TCPDatagram, octets: seq<byte>): seq<byte>
      reads segment`mAbort
    {
      if segment.mAbort then octets else segment.packet
    }

    /** The front of the queue: dropped when it is aborted, else as much of it written as the tun device takes. */
    method WriteFront(segment: TCPDatagram) returns (more: bool, ghost left: bool)
      requires Valid() && mData != [] && segment == mData[0]
      modifies this`mData, this`frames, this`tun, this`took
      modifies segment`mPos, segment`mLimit, segment`mBuffering, segment`freed
      ensures Valid() && Passed() == old(Passed()) && mData == if left then old(mData)[1..] else old(mData)
      ensures if left
        then frames == old(frames) + [Frame(segment, Written(segment, old(Partial())), segment.mAbort)]
        else frames == old(frames)
      ensures segment.freed <==> left && segment.mReleaseAfterBuffering
      ensures segment.mAbort ==> more && left && took == old(took) && tun == old(tun)
      ensures !segment.mAbort ==> old(took) < took && |took| == |old(took)| + 1
      ensures !segment.mAbort ==>
        var w := took[|old(took)|];
        && (more <==> 0 < w) && (left <==> 0 < w == old(segment.mLimit - segment.mPos))
        && |tun| == |old(tun)| + if w < 0 then 0 else w
      ensures more && !left ==> 0 <= segment.mLimit - segment.mPos < old(segment.mLimit - segment.mPos)
    {
      hide Router.Emission, Router.Passed, Router.Partial, Distinct, TCPDatagram.Sound;
      Front();
      more, left := true, true;
      var size := segment.mLimit - segment.mPos;
      if segment.mAbort {
        PopAborted(segment);
      } else {
        var w := Write(size);
        if w <= 0 {
          return false, false;
        }
        if w < size {
          WriteSome(segment, w);
          left := false;
        } else {
          WriteRest(segment);
        }
      }
    }

    /**
     * The tun device is writable: writes from the front until it takes no more or the queue is empty. The first `k`
     * datagrams leave in order, whole unless aborted.
     */
    method OnWritable() returns (ghost k: nat)
      requires Valid()
      modifies this, mData`mPos, mData`mLimit, mData`mBuffering, mData`freed
      ensures Valid() && born == old(born)
      ensures k <= |old(mData)| && mData == old(mData)[k..] && Passed() == old(Passed())
      ensures Left(frames, old(frames), old(mData), k) && !mWriteEvent
      ensures old(took) <= took && (mData != [] ==> Refused(took[|old(took)|..]))
      ensures forall s <- old(mData) :: s.freed <==> s !in mData && s.mReleaseAfterBuffering
    {
      hide Router.Valid, Router.Passed, Router.Partial, Distinct, TCPDatagram.Marked, Left;
      NoneFreed();
      LeftNone(frames, mData);
      k := 0;
      if mData != [] {
        ghost var before := mData;
        while true
          invariant Valid() && born == old(born) && Passed() == old(Passed())
          invariant k < |before| && mData == before[k..] && Left(frames, old(frames), before, k)
          invariant forall s <- before :: s.freed <==> s !in mData && s.mReleaseAfterBuffering
          invariant old(took) <= took
          decreases |before| - k, mData[0].mLimit - mData[0].mPos
        {
          Front();
          LeftOne(frames, old(frames), before, k);
          var more;
          ghost var left;
          more, left := WriteFront(mData[0]);
          if left {
            k := k + 1;
          }
          if !more || mData == [] {
            break;
          }
        }
      }
      mWriteEvent := false;
    }

    /** A datagram that waits now waited before, when the queue has only become shorter. */
    twostate lemma StillWaiting()
      requires old(Valid()) && Valid() && forall s <- mData :: s in old(mData)
      ensures forall s <- born | !s.freed && s.mBuffering :: old(s.mBuffering)
    {
      hide Router.Emission, Distinct, TCPDatagram.Sound;
    }

    /** `releaseData`: deletes whatever is still queued. */
    method ReleaseData()
      requires Valid()
      modifies this`mData, mData`freed
      ensures Flagged() && mData == [] && forall s <- old(mData) :: s.freed
    {
      hide Distinct;
      ghost var before := mData;
      while mData != []
        invariant Flagged() && forall s <- mData :: s in before
        invariant forall s <- before :: s in mData || s.freed
        decreases |mData|
      {
        InPop(mData);
        var segment := mData[0];
        assert segment in mData;
        segment.Delete();
        mData := mData[1..];
      }
    }
  }

  /** The last write took nothing. */
  ghost predicate Refused(took: seq<int>) {
    took != [] && took[|took| - 1] <= 0
  }

  /** The frames added since `was` are the first `k` of a queue, in order, and aborted as those say. */
  ghost predicate Left(frames: seq<Frame>, was: seq<Frame>, q: seq<TCPDatagram>, k: nat)
    reads q`mAbort
  {
    && was <= frames && |frames| == |was| + k && k <= |q|
    && forall i :: 0 <= i < k ==> frames[|was| + i].datagram == q[i] && frames[|was| + i].aborted == q[i].mAbort
  }

  lemma LeftNone(was: seq<Frame>, q: seq<TCPDatagram>)
    ensures Left(was, was, q, 0)
  {
  }

  lemma LeftOne(frames: seq<Frame>, was: seq<Frame>, q: seq<TCPDatagram>, k: nat)
    requires Left(frames, was, q, k) && k < |q|
    ensures forall octets :: Left(frames + [Frame(q[k], octets, q[k].mAbort)], was, q, k + 1)
  {
  }

  ghost function Datagrams(frames: seq<Frame>): seq<TCPDatagram> {
    seq(|frames|, i requires 0 <= i < |frames| => frames[i].datagram)
  }

  lemma DatagramsPush(frames: seq<Frame>, f: Frame, q: seq<TCPDatagram>)
    requires q != [] && f.datagram == q[0]
    ensures Datagrams(frames + [f]) + q[1..] == Datagrams(frames) + q
  {
    assert Datagrams(frames + [f]) == Datagrams(frames) + [q[0]];
  }

  /** The packets of some datagrams one after the other. */
  ghost function Joined(q: seq<TCPDatagram>): seq<byte> {
    if q == [] then [] else q[0].packet + Joined(q[1..])
  }

  lemma {:induction false} JoinedMore(a: seq<TCPDatagram>, b: seq<TCPDatagram>)
    ensures Joined(a + b) == Joined(a) + Joined(b)
  {
    if a == [] {
      assert a + b == b;
    } else {
      calc {
        Joined(a + b);
        { assert (a + b)[1..] == a[1..] + b; }
        a[0].packet + Joined(a[1..] + b);
        { JoinedMore(a[1..], b); }
        a[0].packet + (Joined(a[1..]) + Joined(b));
        (a[0].packet + Joined(a[1..])) + Joined(b);
      }
    }
  }

  lemma JoinedFront(q: seq<TCPDatagram>, octets: seq<byte>)
    requires if q == [] then octets == [] else octets <= q[0].packet
    ensures octets <= Joined(q)
  {
  }

  lemma {:induction false} WholeFrames(frames: seq<Frame>)
    requires forall f <- frames :: f.octets == f.datagram.packet
    ensures Octets(frames) == Joined(Datagrams(frames))
  {
    if frames != [] {
      var init, last := frames[..|frames| - 1], frames[|frames| - 1];
      WholeFrames(init);
      assert Datagrams(frames) == Datagrams(init) + [last.datagram];
      JoinedMore(Datagrams(init), [last.datagram]);
    }
  }

  /** Those of one owner, in order. */
  ghost function Of(q: seq<TCPDatagram>, owner: object): seq<TCPDatagram> {
    if q == [] then [] else (if q[0].owner == owner then [q[0]] else []) + Of(q[1..], owner)
  }

  lemma {:induction false} OfMore(a: seq<TCPDatagram>, b: seq<TCPDatagram>, owner: object)
    ensures Of(a + b, owner) == Of(a, owner) + Of(b, owner)
  {
    if a == [] {
      assert a + b == b;
    } else {
      var first, rest := if a[0].owner == owner then [a[0]] else [], Of(a[1..], owner);
      calc {
        Of(a + b, owner);
        { assert (a + b)[1..] == a[1..] + b; }
        first + Of(a[1..] + b, owner);
        { OfMore(a[1..], b, owner); }
        first + (rest + Of(b, owner));
        (first + rest) + Of(b, owner);
      }
    }
  }

  lemma {:induction false} OfOne(q: seq<TCPDatagram>, one: object, owner: object)
    requires forall i :: 0 <= i < |q| ==> q[i].owner == one
    ensures Of(q, owner) == if one == owner then q else []
  {
    if q != [] {
      OfOne(q[1..], one, owner);
    }
  }

  lemma {:induction false} OfNone(q: seq<TCPDatagram>, owner: object)
    requires forall d <- q :: d.owner != owner
    ensures Of(q, owner) == []
  {
    if q != [] {
      OfNone(q[1..], owner);
    }
  }

  lemma OctetsPush(frames: seq<Frame>, f: Frame)
    ensures Octets(frames + [f]) == Octets(frames) + f.octets
  {
    assert (frames + [f])[..|frames|] == frames;
  }

  ghost function Octets(frames: seq<Frame>): seq<byte> {
    if frames == [] then [] else Octets(frames[..|frames| - 1]) + frames[|frames| - 1].octets
  }
}
