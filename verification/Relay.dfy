/** The Router with its TCP sessions: every interleaving of their steps, and teardown (Router.cpp). */
module Relays {
  import opened Packets
  import opened Routers
  import opened TcpSessions

  /** What the reactor may do next. A session index out of range stands for a session that is gone. */
  datatype Happening =
    | Route(p: Incoming, ends: Endpoints, found: nat, established: bool)
    | ForSession(k: nat, e: Event)
    | TunWritable
    | Expire(k: nat)
  {
    predicate Legal() {
      && (Route? ==> Event.FromPeer(p).Legal())
      && (ForSession? ==> e.Legal())
    }
  }

  ghost predicate Unshared(s: TCPSession, t: TCPSession) {
    s.mTunnel != t.mTunnel && s.history != t.history
  }

  ghost predicate Separate(q: seq<TCPSession>) {
    forall i, j :: 0 <= i < j < |q| ==> q[i] != q[j] && Unshared(q[i], q[j])
  }

  lemma SeparateWithout(q: seq<TCPSession>, k: nat)
    requires Separate(q) && k < |q|
    ensures var r := q[..k] + q[k + 1..]; Separate(r) && forall t <- r :: t in q && t != q[k]
    ensures forall t <- q :: t == q[k] || t in q[..k] + q[k + 1..]
    ensures forall t <- q | t != q[k] :: Unshared(t, q[k])
  {
    var r := q[..k] + q[k + 1..];
    forall t | t in q && t != q[k] ensures t in r {
      var i :| 0 <= i < |q| && q[i] == t;
      assert r[if i < k then i else i - 1] == t;
    }
  }

  lemma SeparateWith(q: seq<TCPSession>, s: TCPSession)
    requires Separate(q) && forall t <- q :: t != s && Unshared(t, s)
    ensures Separate(q + [s])
  {
    assert forall i :: 0 <= i < |q| ==> q[i] in q;
  }

  class Relay {
    const router: Router
    var mTCPSessions: seq<TCPSession>
    /** The datagrams of sessions destroyed. */
    ghost var orphans: set<TCPDatagram>
    /** What happened, in order. */
    ghost var happened: seq<Happening>

    constructor ()
      ensures Valid() && mTCPSessions == [] && fresh(router) && router.born == {} && Tunnels() == {}
        && Histories() == {} && happened == []
    {
      router := new Router();
      mTCPSessions, orphans, happened := [], {}, [];
    }

    /** Sessions share neither tunnels nor, by `owner`, datagrams. */
    ghost predicate Apart()
      reads this`mTCPSessions
    {
      (forall s <- mTCPSessions :: s.router == router) && Separate(mTCPSessions)
    }

    /** Every datagram ever built belongs to a session, or was left behind, freed or queued to be freed. */
    ghost predicate Accounted()
      reads this`mTCPSessions, this`orphans, router, router.born, mTCPSessions
    {
      && (forall d <- router.born :: d in orphans || exists s <- mTCPSessions :: d in s.mMine)
      && (forall d <- orphans :: d in router.born && (d.freed || (d.mReleaseAfterBuffering && d in router.mData)))
      && (forall d <- orphans, s <- mTCPSessions :: d.owner != s)
    }

    /** What a session handed over is in what the Router wrote or has queued, in order, with nothing else of its own. */
    ghost predicate Passing()
      reads this`mTCPSessions, router, mTCPSessions, Histories()
    {
      forall s: TCPSession <- mTCPSessions :: Of(router.Passed(), s) == s.history.mHanded
    }

    ghost predicate Valid()
      reads *
    {
      && router.Valid() && Apart() && Accounted() && Passing()
      && forall s <- mTCPSessions :: s.Valid()
    }

    /** An allocated datagram is in one session's back queue, or in the Router's queue to be freed when it leaves. */
    lemma Holder(d: TCPDatagram)
      requires Valid() && d in router.born && !d.freed
      ensures (d.mReleaseAfterBuffering && d in router.mData) || exists s <- mTCPSessions :: d in s.mBackQueue
      ensures d.mBuffering <==> d in router.mData
      ensures forall s, t | s in mTCPSessions && t in mTCPSessions && d in s.mBackQueue && d in t.mBackQueue :: s == t
    {
      assert forall s <- mTCPSessions :: s.Valid();
    }

    /**
     * What a session hands over is what the tun device gets of it: in order, each datagram once, whole unless aborted,
     * each a packet every receiver accepts and, with a well-behaved peer, with the octets its tunnel delivered.
     */
    lemma OnTheTun(s: TCPSession)
      requires Valid() && s in mTCPSessions
      ensures Of(Datagrams(router.frames) + router.mData, s) == s.history.mHanded
      ensures router.tun == Octets(router.frames) + router.Partial() && forall f <- router.frames :: f.Cut()
      ensures forall d <- s.history.mHanded :: ReceiverAccepts(d.packet)
      ensures s.mPeerOk ==> forall d <- s.history.mHanded | d in s.history.mCarrying && d.mLength > 0 ::
        && 1 <= d.mSeq && d.mSeq - 1 + d.mLength <= |s.mReadOff| && d.mLength <= |d.packet|
        && Payload(d) == s.mReadOff[d.mSeq - 1..d.mSeq - 1 + d.mLength]
    {
      hide TCPSession.Valid, Router.Flagged, ReceiverAccepts, Octets, Of, Datagrams, Payload;
      assert s.Valid();
      s.BackPromises();
      router.TunTook();
    }

    /** Whatever a step adds is new. */
    twostate predicate Renewed()
      reads this`mTCPSessions, router`born
    {
      && (forall d <- router.born :: d in old(router.born) || fresh(d))
      && (forall s <- Sessions() :: s in old(Sessions()) || fresh(s))
      && (forall t <- Tunnels() :: t in old(Tunnels()) || fresh(t))
      && (forall h <- Histories() :: h in old(Histories()) || fresh(h))
    }

    ghost function Sessions(): set<TCPSession>
      reads this`mTCPSessions
    {
      set s <- mTCPSessions
    }

    ghost function Tunnels(): set<TCPTunnel>
      reads this`mTCPSessions
    {
      set s <- mTCPSessions :: s.mTunnel
    }

    ghost function Histories(): set<History>
      reads this`mTCPSessions
    {
      set s <- mTCPSessions :: s.history
    }

    lemma SessionsOwn()
      requires Valid()
      ensures forall s <- mTCPSessions :: s.Sane() && s.mMine <= router.born
      ensures forall s <- mTCPSessions, d <- s.mMine :: d.owner == s
    {
      hide TCPSession.Valid, TCPSession.Sane, Router.Valid;
      forall s | s in mTCPSessions
        ensures s.Sane() && s.mMine <= router.born && forall d <- s.mMine :: d.owner == s
      {
        s.ValidIsBorn();
      }
    }

    /** A step of one session's. */
    twostate lemma PassingOn(s: TCPSession)
      requires old(Passing()) && Apart() && s in mTCPSessions
      requires unchanged(`mTCPSessions) && unchanged(router`frames)
      requires forall t <- mTCPSessions :: t == s || t.history.mHanded == old(t.history.mHanded)
      requires HandedOver(old(router.mData), old(s.history.mHanded), router.mData, s.history.mHanded, s, s.Window())
      ensures Passing()
    {
      hide HandedOver, Of;
      forall t: TCPSession | t in mTCPSessions ensures Of(router.Passed(), t) == t.history.mHanded {
        HandedPart(Datagrams(router.frames), old(router.mData), old(s.history.mHanded), router.mData,
                   s.history.mHanded, s, s.Window(), t);
      }
    }

    /** What an event for a session does: both streams, the state it leaves, and whether it ends in a clean stop. */
    twostate predicate Handled(s: TCPSession, e: Event)
      requires e.Legal() && old(s.Valid())
      reads s, s.history, s.mTunnel, s.mBackQueue, s.router, s.router.mData
    {
      && s.Stepped() && s.Streamed(e)
      && (if e.FromPeer? then
            && s.TookPacket(e.p, old(RelativeSeq(e.p.seqNo, s.mRemoteSeqBase)),
                            old(RelativeSeq(e.p.ackNo, s.mLocalSeqBase)))
            && s.Judged(e.p, old(RelativeSeq(e.p.ackNo, s.mLocalSeqBase)))
          else s.TookEvent(e))
      && (old(s.history.mClean) ==> (s.history.mClean <==>
            old(s.Survives(e)) || (e.TunnelWritable? && s.mTunnel.mOpen == old(s.mTunnel.mOpen))))
    }

    /** An event for one session. */
    method Dispatch(s: TCPSession, e: Event)
      requires Valid() && s in mTCPSessions && e.Legal()
      modifies router, s, s.history, s.mTunnel, s.mMine
      ensures Valid() && Renewed() && unchanged(this) && Handled(s, e)
    {
      hide TCPSession.Valid, TCPSession.Sane, Router.Valid, Relay.Passing, HandedOver;
      hide TCPSession.Streamed, TCPSession.TookPacket, TCPSession.TookEvent, TCPSession.Judged, TCPSession.Survives;
      SessionsOwn();
      s.Handle(e);
      s.ValidIsBorn();
      HandedKeeps(old(router.mData), old(s.history.mHanded), router.mData, s.history.mHanded, s, s.Window());
      forall t | t in mTCPSessions && t != s ensures t.Valid() {
        t.Undisturbed();
      }
      PassingOn(s);
    }

    /** A new session has handed over what is in the queue of its own. */
    twostate lemma PassingNew(new s: TCPSession)
      requires old(Passing()) && fresh(s)
      requires mTCPSessions == old(mTCPSessions) + [s] && unchanged(router`frames)
      requires forall t <- old(mTCPSessions) :: t.history.mHanded == old(t.history.mHanded)
      requires HandedOver(old(router.mData), [], router.mData, s.history.mHanded, s, s.Window())
      ensures Passing()
    {
      hide HandedOver, Of;
      OfNone(old(router.Passed()), s);
      forall t: TCPSession | t in mTCPSessions ensures Of(router.Passed(), t) == t.history.mHanded {
        HandedPart(Datagrams(router.frames), old(router.mData), [], router.mData, s.history.mHanded, s, s.Window(), t);
      }
    }

    /** `route` when no session is found: only a SYN makes one, and only when the tunnel is being established. */
    method Open(p: Incoming, ends: Endpoints, established: bool)
      requires Valid() && Event.FromPeer(p).Legal()
      modifies this`mTCPSessions, router
      ensures Valid() && Renewed() && happened == old(happened)
      ensures if !p.syn || !established then unchanged(this) && unchanged(router)
        else |mTCPSessions| == |old(mTCPSessions)| + 1 && mTCPSessions[..|old(mTCPSessions)|] == old(mTCPSessions)
      ensures p.syn && established ==>
        var s := mTCPSessions[|mTCPSessions| - 1]; fresh(s) && s.mState == SYN_RCVED && s.ends == ends
    {
      hide TCPSession.Valid, TCPSession.Sane, TCPSession.New, Router.Valid, Separate, Relay.Passing, HandedOver;
      SessionsOwn();
      if !p.syn || !established {
        return;
      }
      var s := Connected(router, ends, p);
      s.ValidIsBorn();
      forall t | t in mTCPSessions ensures t.Valid() {
        t.Undisturbed();
      }
      SeparateWith(mTCPSessions, s);
      mTCPSessions := mTCPSessions + [s];
      PassingNew(s);
    }

    /** Destroys a session; what it leaves in the Router's queue is freed there. */
    method Release(k: nat)
      requires Valid() && k < |mTCPSessions|
      modifies this`mTCPSessions, this`orphans, mTCPSessions[k], mTCPSessions[k].mTunnel, mTCPSessions[k].mMine
      ensures Valid() && happened == old(happened)
        && mTCPSessions == old(mTCPSessions)[..k] + old(mTCPSessions)[k + 1..]
    {
      hide TCPSession.Valid, TCPSession.Sane, Router.Valid, Router.Passed, Separate, Of;
      SessionsOwn();
      SeparateWithout(mTCPSessions, k);
      var s := mTCPSessions[k];
      assert s in mTCPSessions;
      s.Destroy();
      forall t | t in mTCPSessions && t != s ensures t.Valid() {
        assert (forall d <- t.mMine :: d.owner == t) && forall d <- s.mMine :: d.owner == s;
        t.Undisturbed();
      }
      mTCPSessions := mTCPSessions[..k] + mTCPSessions[k + 1..];
      orphans := orphans + s.mMine;
    }

    twostate lemma PassingKept()
      requires old(Passing()) && unchanged(`mTCPSessions) && router.Passed() == old(router.Passed())
      requires forall t <- mTCPSessions :: t.history.mHanded == old(t.history.mHanded)
      ensures Passing()
    {
    }

    /**
     * The tun device is writable: the datagrams at the front of the queue leave in order, whole unless aborted, whoever
     * handed them over.
     */
    method OnWritable() returns (ghost k: nat)
      requires Valid()
      modifies router, router.mData
      ensures Valid() && router.Passed() == old(router.Passed())
      ensures Left(router.frames, old(router.frames), old(router.mData), k) && old(router.took) <= router.took
      ensures unchanged(this) && router.born == old(router.born)
      ensures router.mData != [] ==> Refused(router.took[|old(router.took)|..])
    {
      hide Router.Valid, Refused, Router.Passed, TCPSession.Valid, Relay.Passing, Left, Of;
      SessionsOwn();
      router.NoneFreed();
      k := router.OnWritable();
      router.StillWaiting();
      forall t | t in mTCPSessions ensures t.Valid() {
        t.Drained();
      }
      PassingKept();
    }

    /** The Router's destructor: sessions first, then its own queue. Nothing stays allocated. */
    method Teardown()
      requires Valid()
      modifies this, router, Sessions(), Tunnels(), Histories(), router.born
      ensures happened == old(happened) && mTCPSessions == [] && router.mData == [] && forall d <- router.born ::
        d.freed
    {
      while mTCPSessions != []
        invariant Valid() && router.born == old(router.born) && happened == old(happened)
        invariant forall s <- mTCPSessions :: s in old(mTCPSessions)
        decreases |mTCPSessions|
      {
        SessionsOwn();
        assert mTCPSessions[0] in mTCPSessions;
        Release(0);
      }
      router.ReleaseData();
    }

    /** What a step does to the sessions and to the Router's queue. */
    twostate predicate Did(h: Happening)
      requires old(Valid()) && h.Legal()
      reads *
    {
      match h
      case Route(p, ends, k, established) =>
        if k < |old(mTCPSessions)| then mTCPSessions == old(mTCPSessions) && Handled(mTCPSessions[k], FromPeer(p))
        else if p.syn && established then
          && |mTCPSessions| == |old(mTCPSessions)| + 1 && mTCPSessions[..|old(mTCPSessions)|] == old(mTCPSessions)
          && fresh(mTCPSessions[|old(mTCPSessions)|]) && mTCPSessions[|old(mTCPSessions)|].mState == SYN_RCVED
          && mTCPSessions[|old(mTCPSessions)|].ends == ends
        else mTCPSessions == old(mTCPSessions) && unchanged(router)
      case ForSession(k, e) =>
        && mTCPSessions == old(mTCPSessions)
        && if k < |mTCPSessions| then Handled(mTCPSessions[k], e) else unchanged(router)
      case TunWritable =>
        && mTCPSessions == old(mTCPSessions) && router.Passed() == old(router.Passed())
        && old(router.took) <= router.took && (router.mData != [] ==> Refused(router.took[|old(router.took)|..]))
      case Expire(k) =>
        && router.mData == old(router.mData)
        && mTCPSessions == old(if k < |mTCPSessions| then mTCPSessions[..k] + mTCPSessions[k + 1..] else mTCPSessions)
    }

    /** One step of the reactor's. */
    method Act(h: Happening)
      requires Valid() && h.Legal()
      modifies this, router, Sessions(), Tunnels(), Histories(), router.born
      ensures Valid() && Renewed() && Did(h) && happened == old(happened)
    {
      hide Router.Valid, TCPSession.Valid, Relay.Handled, Refused, Router.Passed, Relay.Passing, Relay.Accounted;
      SessionsOwn();
      QueueIsBorn();
      match h
      case Route(p, ends, k, established) =>
        if k < |mTCPSessions| {
          assert mTCPSessions[k] in mTCPSessions;
          Dispatch(mTCPSessions[k], FromPeer(p));
        } else {
          Open(p, ends, established);
        }
      case ForSession(k, e) =>
        if k < |mTCPSessions| {
          assert mTCPSessions[k] in mTCPSessions;
          Dispatch(mTCPSessions[k], e);
        }
      case TunWritable =>
        ghost var k := OnWritable();
      case Expire(k) =>
        if k < |mTCPSessions| {
          assert mTCPSessions[k] in mTCPSessions;
          Release(k);
        }
    }

    /** One step of the reactor's, put on record. */
    method Step(h: Happening)
      requires Valid() && h.Legal()
      modifies this, router, Sessions(), Tunnels(), Histories(), router.born
      ensures Valid() && Renewed() && Did(h) && happened == old(happened) + [h]
    {
      hide Relay.Valid, Relay.Handled;
      Act(h);
      Note(h);
    }

    ghost method Note(h: Happening)
      requires Valid()
      modifies this`happened
      ensures Valid() && happened == old(happened) + [h]
    {
      hide Router.Valid, TCPSession.Valid, Separate, Of;
      happened := happened + [h];
    }

    lemma QueueIsBorn()
      requires Valid()
      ensures forall d <- router.mData :: d in router.born
    {
      hide TCPSession.Valid;
    }

    /** Every run of the reactor's keeps what `Valid` says, whatever the order of its steps. */
    method Run(script: seq<Happening>)
      requires Valid() && forall h <- script :: h.Legal()
      modifies this, router, Sessions(), Tunnels(), Histories(), router.born
      ensures Valid() && Renewed() && happened == old(happened) + script
    {
      hide Relay.Valid;
      for i := 0 to |script|
        invariant Valid() && Renewed() && happened == old(happened) + script[..i]
      {
        Step(script[i]);
      }
    }
  }

  /** A relay from its creation to its teardown frees every datagram it ever built, once. */
  method Lifetime(script: seq<Happening>) returns (relay: Relay)
    requires forall h <- script :: h.Legal()
    ensures fresh(relay) && relay.happened == script && relay.mTCPSessions == [] && relay.router.mData == []
    ensures forall d <- relay.router.born :: d.freed
  {
    relay := new Relay();
    relay.Run(script);
    relay.Teardown();
  }
}
