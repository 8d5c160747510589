/** One direction of a ciphered connection: what a proxy takes from its client, its peer delivers. */
module Links {
  import opened Bytes
  import opened Ciphers
  import opened Buffers
  import opened Socks5

  /** What can happen next: the client offers payload, the sender's socket is writable, some octets arrive. */
  datatype Step = Offer(data: seq<byte>) | Writable | Readable(n: nat)

  /** Neither proxy writes to the other's decrypt buffer; they may share a cipher and a static buffer. */
  ghost predicate Unmixed(a: Socks5Proxy, b: Socks5Proxy) {
    && a != b && a.mDecryptBuffer != b.mDecryptBuffer && a.mDecryptBuffer.mData != b.mDecryptBuffer.mData
    && a.sTemporary != b.mDecryptBuffer.mData && a.cipher.Foreign(b.mDecryptBuffer.mData)
    && b.sTemporary != a.mDecryptBuffer.mData && b.cipher.Foreign(a.mDecryptBuffer.mData)
  }

  /** Two proxies in TRANS; octets the sender's socket took reach the receiver in order, in pieces of any size. */
  class Link {
    const sender: Socks5Proxy
    const receiver: Socks5Proxy
    /** Octets and parcels sent, and parcels received, before the link was set up. */
    const skip: nat
    ghost const sentBefore: seq<Parcel>
    ghost const receivedBefore: seq<Parcel>
    /** Octets of the sender's wire that arrived. */
    var arrived: nat

    /** Parcels made on this link. */
    ghost function Made(): seq<Parcel>
      reads sender
    {
      if |sentBefore| <= |sender.taken| then sender.taken[|sentBefore|..] else []
    }

    /** How many of them the receiver has decrypted. */
    ghost function Got(): nat
      requires |receivedBefore| <= |receiver.incoming|
      reads receiver
    {
      |receiver.incoming| - |receivedBefore|
    }

    ghost predicate Valid()
      reads this, sender, sender.mDecryptBuffer, sender.mDecryptBuffer.mData
      reads receiver, receiver.mDecryptBuffer, receiver.mDecryptBuffer.mData
    {
      && Unmixed(sender, receiver) && sender.Valid() && receiver.Valid()
      && sender.mS5State.TRANS? && receiver.mS5State.TRANS?
      && sentBefore <= sender.taken && receivedBefore <= receiver.incoming
      && skip == |Wire(sentBefore)| && skip + arrived <= |sender.wire|
      && receiver.parcelsAtEntry == |receivedBefore|
      && receiver.stream == Wire(receivedBefore) + sender.wire[skip..][..arrived]
      && Got() <= |Made()| && receiver.incoming == receivedBefore + Made()[..Got()]
      && Onto(receiver.mDecryptBuffer.Contents(), Made()[Got()..])
      && IsWholeCount(Made()[Got()..], |receiver.mDecryptBuffer.Contents()|, 0)
    }

    constructor (sender: Socks5Proxy, receiver: Socks5Proxy)
      requires Unmixed(sender, receiver)
      requires sender.Valid() && sender.mS5State.TRANS? && sender.mOutQueue == []
      requires receiver.Valid() && receiver.mS5State.TRANS? && receiver.mPayloadDataBack == 0
      requires receiver.mDecryptBuffer.Contents() == []
      ensures Valid() && this.sender == sender && this.receiver == receiver && arrived == 0 && Made() == []
    {
      hide Wire, PlainText, Onto, IsWholeCount, Socks5Proxy.Outbound, Socks5Proxy.BoundedIn, Socks5Proxy.Disclosed;
      this.sender, this.receiver, arrived := sender, receiver, 0;
      skip, sentBefore, receivedBefore := |sender.wire|, sender.taken, receiver.incoming;
      new;
      sender.NothingQueued();
      receiver.NothingYet();
      NothingPending();
    }

    lemma AllMadeValid()
      requires sender.Valid() && sentBefore <= sender.taken
      ensures AllValid(Made())
    {
      hide Wire, Parcel.Valid;
    }

    lemma ReceiverApart()
      requires Valid()
      ensures receiver.mDecryptBuffer.Valid()
    {
      hide Wire, PlainText, Onto, IsWholeCount;
    }

    /** The client offers `data`; the sender takes some of it and reports how much. */
    method Offer(data: array<byte>) returns (r: nat)
      requires Valid() && data != sender.sTemporary && sender.cipher.Foreign(data)
      modifies sender, sender.sTemporary, sender.cipher.mBuffer, sender.cipher.mBuffer1
      ensures Valid() && r <= data.Length
      ensures PlainText(Made()) == old(PlainText(Made())) + data[..r]
      ensures r == if data.Length == 0
        || old(sender.GetAvailableBufferSize()) < data.Length then 0 else Taken(data.Length)
    {
      hide Wire, PlainText, Onto, IsWholeCount, Socks5Proxy.Valid;
      ghost var taken, made := sender.taken, Made();
      ReceiverApart();
      r := sender.TakeData(data);
      AllMadeValid();
      Reported(taken, sender.taken, sentBefore, data[..r]);
      MadeMore(made, Made()[|made|..], Got(), receiver.mDecryptBuffer.Contents());
    }

    /** The sender's socket is writable; its client may have more to offer. */
    method Flush(offers: seq<array<byte>>)
      requires Valid() && sender.mSocketOpen && sender.Offered(offers)
      modifies sender, sender.sTemporary, sender.cipher.mBuffer, sender.cipher.mBuffer1
      ensures Valid() && old(Made()) <= Made()
      ensures offers == [] ==> Made() == old(Made())
    {
      hide Wire, PlainText, Onto, IsWholeCount, Socks5Proxy.Valid;
      ghost var wire, made := sender.wire, Made();
      ReceiverApart();
      sender.OnWritable(offers);
      AllMadeValid();
      assert Made() == made + Made()[|made|..];
      assert sender.wire[skip..][..arrived] == wire[skip..][..arrived];
      MadeMore(made, Made()[|made|..], Got(), receiver.mDecryptBuffer.Contents());
    }

    /** What arrived is the ciphertext of the parcels decrypted and the octets left of the next. */
    lemma OnTheWire()
      requires Valid()
      ensures sender.wire[skip..] <= Wire(Made())
      ensures sender.wire[skip..][..arrived] == Wire(Made()[..Got()]) + receiver.mDecryptBuffer.Contents()
    {
      hide Wire, PlainText, Onto, IsWholeCount;
      var made, g := Made(), Got();
      assert sender.taken == sentBefore + made;
      WireSplit(sentBefore, made);
      WireSplit(receivedBefore, made[..g]);
      Dropped(sender.wire, Flat(sender.mOutQueue), Wire(sentBefore), Wire(made));
      Cancel(Wire(receivedBefore), sender.wire[skip..][..arrived], Wire(made[..g]), receiver.mDecryptBuffer.Contents());
    }

    /** The next octets on the wire reach the receiver. */
    method Arrive(bytes: seq<byte>)
      requires Valid() && receiver.mSocketOpen
      requires 1 <= |bytes| <= SHARE_BUFFER_SIZE && bytes <= sender.wire[skip + arrived..]
      modifies this, receiver, receiver.mDecryptBuffer, receiver.mDecryptBuffer.mData
      modifies receiver.sTemporary, receiver.cipher.mBuffer, receiver.cipher.mBuffer1
      ensures Valid() && arrived == old(arrived) + |bytes| && Made() == old(Made())
    {
      hide Wire, PlainText, Onto, IsWholeCount, Socks5Proxy.Valid, Heard;
      AllMadeValid();
      ReceiverApart();
      ghost var made, g, left := Made(), Got(), receiver.mDecryptBuffer.Contents();
      ghost var w := sender.wire[skip..][..arrived];
      assert sender.wire[skip..][..arrived + |bytes|] == w + bytes;
      OnTheWire();
      ArriveOnto(made, g, w, left, bytes);
      ghost var k := receiver.OnReadable(Data(bytes), [], made[g..]);
      arrived := arrived + |bytes|;
    }

    /**
     * At any time the client at the far end has a prefix of what the sender's client was told is taken, and once
     * the whole ciphertext has arrived it has all of it.
     */
    lemma Delivered()
      requires Valid()
      ensures receiver.delivered <= PlainText(Made())
      ensures arrived == |Wire(Made())| ==> receiver.delivered == PlainText(Made())
    {
      hide Wire, PlainText, Onto, IsWholeCount;
      OnTheWire();
      var made, g := Made(), Got();
      assert (receivedBefore + made[..g])[|receivedBefore|..] == made[..g];
      Delivery(made, g, sender.wire[skip..][..arrived], receiver.mDecryptBuffer.Contents());
    }

    lemma BothShaken()
      requires Valid()
      ensures sender.Shaken() && receiver.Shaken()
    {
      hide Wire, PlainText, Onto, IsWholeCount, Socks5Proxy.Valid;
      sender.HandshakeFirst();
      receiver.HandshakeFirst();
    }

    /** How many octets a read asked for `n` may give: no more than are on their way, and than the buffer takes. */
    function Reach(n: nat): (m: nat)
      requires skip + arrived <= |sender.wire|
      reads this, sender
      ensures m <= n && m <= 8192 && m <= |sender.wire| - skip - arrived
      ensures m == n || m == 8192 || m == |sender.wire| - skip - arrived
    {
      var m := if n > SHARE_BUFFER_SIZE then SHARE_BUFFER_SIZE else n;
      if m > |sender.wire| - skip - arrived then |sender.wire| - skip - arrived else m
    }

    /** One step of a run; a step that is not possible now does nothing. Gives the octets reported as taken. */
    method Take(step: Step) returns (reported: seq<byte>)
      requires Valid()
      modifies this, sender, receiver, receiver.mDecryptBuffer, receiver.mDecryptBuffer.mData
      modifies sender.sTemporary, sender.cipher.mBuffer, sender.cipher.mBuffer1
      modifies receiver.sTemporary, receiver.cipher.mBuffer, receiver.cipher.mBuffer1
      ensures Valid() && PlainText(Made()) == old(PlainText(Made())) + reported
      ensures !step.Offer? ==> reported == []
      ensures step.Offer? ==>
        if old(sender.GetAvailableBufferSize()) < |step.data| then reported == []
        else reported == step.data[..Taken(|step.data|)]
      ensures arrived == old(arrived) + if step.Readable? && old(receiver.mSocketOpen) then old(Reach(step.n)) else 0
    {
      hide PlainText, Wire, Socks5Proxy.Valid, Onto, IsWholeCount;
      reported := [];
      match step {
        case Offer(d) =>
          var data := new byte[|d|](i requires 0 <= i < |d| => d[i]);
          var r := Offer(data);
          reported := data[..r];
        case Writable =>
          if sender.mSocketOpen {
            Flush([]);
          }
        case Readable(n) =>
          var flight := sender.wire[skip + arrived..];
          var m := Reach(n);
          if receiver.mSocketOpen && m > 0 {
            Arrive(flight[..m]);
          }
      }
    }

    /** Any run: offers of any size, sends that take any amount, arrivals in pieces of any size up to a read. */
    method Run(script: seq<Step>) returns (reported: seq<byte>)
      requires Valid() && Made() == []
      modifies this, sender, receiver, receiver.mDecryptBuffer, receiver.mDecryptBuffer.mData
      modifies sender.sTemporary, sender.cipher.mBuffer, sender.cipher.mBuffer1
      modifies receiver.sTemporary, receiver.cipher.mBuffer, receiver.cipher.mBuffer1
      ensures Valid()
      ensures PlainText(Made()) == reported
      ensures receiver.delivered <= reported
      ensures arrived == |Wire(Made())| ==> receiver.delivered == reported
    {
      hide *;
      reported := [];
      NothingPending();
      for i := 0 to |script|
        invariant Valid() && PlainText(Made()) == reported
      {
        var r := Take(script[i]);
        reported := reported + r;
      }
      Delivered();
    }
  }

  lemma Reported(before: seq<Parcel>, after: seq<Parcel>, base: seq<Parcel>, plain: seq<byte>)
    requires base <= before
    requires plain == [] ==> after == before
    requires plain != [] ==> |after| == |before| + 1 && after[..|before|] == before && after[|before|].plain == plain
    ensures base <= after && after[|base|..] == before[|base|..] + after[|before|..]
    ensures PlainText(after[|base|..]) == PlainText(before[|base|..]) + plain
  {
    if plain == [] {
      assert after[|before|..] == [];
    } else {
      assert after[|base|..] == before[|base|..] + [after[|before|]];
      WireAppend(before[|base|..], after[|before|]);
    }
  }

  lemma NothingPending()
    ensures IsWholeCount([], 0, 0) && Onto([], []) && Wire([]) == [] && PlainText([]) == []
  {
  }

  /** Making more parcels leaves nothing the receiver missed. */
  lemma MadeMore(made: seq<Parcel>, more: seq<Parcel>, g: nat, left: seq<byte>)
    requires AllValid(made + more) && g <= |made|
    requires Onto(left, made[g..]) && IsWholeCount(made[g..], |left|, 0)
    ensures (made + more)[..g] == made[..g]
    ensures Onto(left, (made + more)[g..]) && IsWholeCount((made + more)[g..], |left|, 0)
  {
    var rest := made[g..];
    assert (made + more)[g..] == rest + more;
    RestMore(rest, more, left) by {
      assert forall p <- more :: p in made + more;
    }
  }

  lemma RestMore(rest: seq<Parcel>, more: seq<Parcel>, left: seq<byte>)
    requires AllValid(more) && Onto(left, rest) && IsWholeCount(rest, |left|, 0)
    ensures Onto(left, rest + more) && IsWholeCount(rest + more, |left|, 0)
  {
    WireSplit(rest, more);
    if rest != [] {
      assert (rest + more)[..1] == rest[..1];
    } else if more != [] {
      CiphertextBounds(more[0]);
      WireCons(more[0], []);
      assert rest + more == more && more[..1] == [more[0]] + [];
    }
  }

  lemma Dropped(wire: seq<byte>, queued: seq<byte>, a: seq<byte>, b: seq<byte>)
    requires wire + queued == a + b && |a| <= |wire|
    ensures wire[|a|..] <= b
  {
    var whole := wire + queued;
    forall i | 0 <= i < |wire| - |a| ensures wire[|a|..][i] == b[i] {
      assert whole[|a| + i] == wire[|a| + i];
    }
  }

  lemma Cancel(a: seq<byte>, w: seq<byte>, b: seq<byte>, left: seq<byte>)
    requires a + w == (a + b) + left
    ensures w == b + left
  {
    assert (a + b) + left == a + (b + left);
    assert (a + w)[|a|..] == w && (a + (b + left))[|a|..] == b + left;
  }

  /**
   * Whatever was made, however much of it arrived: the parcels decrypted so far hold a prefix of the plaintext,
   * and all of it once the whole ciphertext has arrived.
   */
  lemma Delivery(made: seq<Parcel>, g: nat, w: seq<byte>, left: seq<byte>)
    requires AllValid(made) && g <= |made| && w == Wire(made[..g]) + left
    requires IsWholeCount(made[g..], |left|, 0)
    ensures PlainText(made[..g]) <= PlainText(made)
    ensures |w| >= |Wire(made)| ==> g == |made| && PlainText(made[..g]) == PlainText(made)
  {
    hide Parcel.Ciphertext, Wire, PlainText;
    var done, rest := made[..g], made[g..];
    assert made == done + rest;
    WireSplit(done, rest);
    PlainTextSplit(done, rest);
    if g < |made| {
      WireSplit(rest[..1], rest[1..]);
      assert rest == rest[..1] + rest[1..];
    } else {
      assert done == made;
    }
  }

  /** A new proxy with a cipher and a static buffer of its own, its socket being connected. */
  method Started(cfg: Config) returns (p: Socks5Proxy)
    requires cfg.Valid()
    ensures fresh(p) && fresh(p.mDecryptBuffer) && fresh(p.mDecryptBuffer.mData)
    ensures fresh(p.sTemporary) && fresh(p.cipher.mBuffer) && fresh(p.cipher.mBuffer1)
    ensures p.Valid() && p.cfg == cfg && p.mS5State.INIT? && p.mSocketOpen
    ensures p.stream == [] && p.taken == [] && p.trace == []
  {
    hide Socks5Proxy.Valid;
    var cipher := new Cipher();
    var sTemporary := new byte[SHARE_BUFFER_SIZE](_ => 0);
    p := new Socks5Proxy(cfg, cipher, sTemporary);
    var r := p.Establish(true);
  }

  /**
   * Two proxies, each after any run of its own with a server that encrypts what it sends. Once both are past their
   * handshakes and idle, what one takes the other delivers.
   */
  method Meet(cfgA: Config, runA: seq<Happening>, ghost fromA: seq<Parcel>,
              cfgB: Config, runB: seq<Happening>, ghost fromB: seq<Parcel>, script: seq<Step>)
    returns (link: Link?, reported: seq<byte>)
    requires cfgA.Valid() && AllValid(fromA) && Received(runA) <= Wire(fromA) && forall h <- runA :: h.Legal()
    requires cfgB.Valid() && AllValid(fromB) && Received(runB) <= Wire(fromB) && forall h <- runB :: h.Legal()
    ensures link != null ==>
      && link.Valid() && link.sender.Shaken() && link.receiver.Shaken() && PlainText(link.Made()) == reported
      && link.receiver.delivered <= reported
      && (link.arrived == |Wire(link.Made())| ==> link.receiver.delivered == reported)
  {
    hide Socks5Proxy.Valid, Socks5Proxy.Shaken, Wire, PlainText, Received, Link.Valid;
    link, reported := null, [];
    var a := Started(cfgA);
    var b := Started(cfgB);
    a.Run(runA, fromA);
    b.Run(runB, fromB);
    var idle := a.mOutQueue == [] && b.mPayloadDataBack == 0 && b.mDecryptBuffer.mPos == b.mDecryptBuffer.mLimit;
    if a.mS5State.TRANS? && b.mS5State.TRANS? && idle {
      EmptyBuffer(b);
      link := new Link(a, b);
      reported := link.Run(script);
      link.BothShaken();
    }
  }

  lemma EmptyBuffer(p: Socks5Proxy)
    requires p.Valid() && p.mDecryptBuffer.mPos == p.mDecryptBuffer.mLimit
    ensures p.mDecryptBuffer.Contents() == []
  {
  }

  /** A server encrypts one message. */
  method Encrypted(msg: seq<byte>) returns (octets: seq<byte>, ghost parcel: Parcel)
    requires 1 <= |msg| <= 1021
    ensures parcel.Valid() && parcel.plain == msg && octets == parcel.Ciphertext()
    ensures 1 <= |octets| <= SHARE_BUFFER_SIZE
  {
    hide Parcel.Ciphertext, Parcel.Inner;
    var cipher := new Cipher();
    var data := new byte[|msg|](i requires 0 <= i < |msg| => msg[i]);
    var out := new byte[SHARE_BUFFER_SIZE](_ => 0);
    assert data[0..|msg|] == msg;
    EstimateFits(|msg|);
    var t, n;
    t, n, parcel := cipher.Encrypt(data, 0, |msg|, out, SHARE_BUFFER_SIZE);
    CiphertextBounds(parcel);
    octets := out[..n];
  }

  /** A proxy reads one parcel whole: one message. */
  method Hears(p: Socks5Proxy, msg: seq<byte>)
    requires p.Valid() && p.mSocketOpen && p.mDecryptBuffer.Contents() == [] && 1 <= |msg| <= 1021
    modifies p, p.mDecryptBuffer, p.mDecryptBuffer.mData, p.sTemporary, p.cipher.mBuffer, p.cipher.mBuffer1
    ensures p.Valid() && p.mDecryptBuffer.Contents() == [] && p.taken == old(p.taken)
    ensures p.trace == old(p.trace) + [msg] && p.mS5State == AfterMessage(old(p.mS5State), msg, p.cfg)
    ensures p.mS5State.Shaking() ==> p.mSocketOpen
  {
    hide Socks5Proxy.Valid, Wire, PlainText, IsWholeCount, Onto, AfterMessage, Heard, Parcel.Valid, Parcel.Ciphertext;
    hide Flat, AllValid;
    ghost var parcel;
    var octets;
    octets, parcel := Encrypted(msg);
    OneAhead(parcel);
    WireOfStream(p);
    ghost var incoming, stream, trace := p.incoming, p.stream, p.trace;
    ghost var k := p.OnReadable(Data(octets), [], [parcel]);
    WireOfStream(p);
    OneRead(incoming, stream, parcel, k, p.mDecryptBuffer.Contents());
    OneHeard(old(p.mS5State), trace, p.trace, p.mS5State, parcel, k, p.cfg);
  }

  lemma WireOfStream(p: Socks5Proxy)
    requires p.Valid()
    ensures p.mDecryptBuffer.Valid() && p.stream == Wire(p.incoming) + p.mDecryptBuffer.Contents()
  {
  }

  lemma OneAhead(p: Parcel)
    ensures Wire([p]) == p.Ciphertext() && Onto([] + p.Ciphertext(), [p]) && PlainText([p]) == p.plain
    ensures p.Valid() ==> AllValid([p])
  {
    assert [] + p.Ciphertext() == p.Ciphertext();
    hide Parcel.Ciphertext;
    WireCons(p, []);
    assert [p] + [] == [p];
  }

  /** One whole parcel that arrives at an empty buffer is decrypted. */
  lemma OneRead(incoming: seq<Parcel>, stream: seq<byte>, p: Parcel, k: nat, left: seq<byte>)
    requires k <= 1 && IsWholeCount([p][k..], |left|, 0)
    requires stream == Wire(incoming) + [] && stream + p.Ciphertext() == Wire(incoming + [p][..k]) + left
    ensures k == 1 && left == []
  {
    hide Parcel.Ciphertext;
    OneAhead(p);
    assert stream == Wire(incoming);
    assert incoming + [p][..0] == incoming && [p][0..] == [p] && [p][..1] == [p];
    WireSplit(incoming, [p]);
  }

  /** One parcel makes one message. */
  lemma OneHeard(start: State, before: seq<seq<byte>>, trace: seq<seq<byte>>, state: State, p: Parcel, k: nat,
                 cfg: Config)
    requires before <= trace && k == 1 && p.Valid()
    requires Heard(start, trace[|before|..], state, [p][..k], cfg)
    ensures trace == before + [p.plain] && state == AfterMessage(start, p.plain, cfg)
  {
    hide Parcel.Ciphertext, AfterMessage;
    OneAhead(p);
    assert [p][..1] == [p];
    var messages := trace[|before|..];
    assert trace == before + messages;
    if messages != [] {
      assert messages == [messages[0]] && messages[1..] == [];
      assert Flat(messages) == messages[0] + Flat([]) == messages[0];
      AfterOneMore(start, [], messages[0], cfg);
      assert [] + [messages[0]] == [messages[0]];
    }
  }

  /** A new proxy past its handshake with a server that asks for no account. */
  method Handshaken(cfg: Config) returns (p: Socks5Proxy)
    requires cfg.Valid() && cfg.Allows(VERIFY_NONE)
    ensures fresh(p) && fresh(p.mDecryptBuffer) && fresh(p.mDecryptBuffer.mData)
    ensures fresh(p.sTemporary) && fresh(p.cipher.mBuffer) && fresh(p.cipher.mBuffer1)
    ensures p.Valid() && p.mS5State.TRANS? && p.mOutQueue == [] && p.mPayloadDataBack == 0
    ensures p.mDecryptBuffer.Contents() == []
  {
    hide Socks5Proxy.Valid;
    p := Started(cfg);
    p.NothingBuffered();
    p.OnWritable([]);
    Hears(p, [5, VERIFY_NONE]);
    Hears(p, [5, 0, 0, 1]);
    Idle(p);
  }

  lemma Idle(p: Socks5Proxy)
    requires p.Valid() && p.mS5State.TRANS? && |p.trace| == 2 && p.taken == []
    ensures p.mOutQueue == [] && p.mPayloadDataBack == 0
  {
  }

  /**
   * Two proxies in processes of their own, from their creation: past their handshakes, whatever is offered, however
   * it is sent and cut, the client at the far end has a prefix of what the near one was told is taken, and all of
   * it once the whole ciphertext has arrived.
   */
  method EndToEnd(cfgA: Config, cfgB: Config, script: seq<Step>) returns (link: Link, reported: seq<byte>)
    requires cfgA.Valid() && cfgA.Allows(VERIFY_NONE) && cfgB.Valid() && cfgB.Allows(VERIFY_NONE)
    ensures link.Valid() && PlainText(link.Made()) == reported && link.receiver.delivered <= reported
    ensures link.arrived == |Wire(link.Made())| ==> link.receiver.delivered == reported
  {
    hide Socks5Proxy.Valid, Wire, PlainText, Link.Valid;
    var a := Handshaken(cfgA);
    var b := Handshaken(cfgB);
    link := new Link(a, b);
    reported := link.Run(script);
  }
}
