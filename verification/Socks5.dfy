/** The SOCKS5 proxy tunnel (Socks5Proxy.cpp): handshake, ciphered send queues and the decrypt buffer. */
module Socks5 {
  import opened Bytes
  import opened Framing
  import opened Ciphers
  import opened Buffers

  const SHARE_BUFFER_SIZE := 8192
  const MAX_SEND_BUFFER := 0x4_0000
  const MAX_PARCEL_SIZE := 8192

  /** Most octets one `encrypt` call can write. */
  const MAX_CIPHERTEXT := 4114

  datatype State = INIT | GREET | VERIFY | CONNECT | TRANS | END | FAILED {
    /** How many handshake requests may have been queued on reaching this state. */
    function Requests(): nat {
      match this
      case INIT => 0
      case GREET => 1
      case VERIFY => 2
      case _ => 3
    }

    predicate Over() { END? || FAILED? }

    /** The handshake goes on. */
    predicate Shaking() { GREET? || VERIFY? || CONNECT? }
  }

  const VERIFY_NONE: byte := 0
  const VERIFY_ACCOUNT: byte := 2

  /** What `read` returned. */
  datatype ReadResult = Data(bytes: seq<byte>) | Eof | Error(retry: bool)

  /**
   * The settings a handshake depends on, and the destination asked for; `methods` are the four octets of the configured
   * method word, `port` and `address` as they lie in memory.
   */
  datatype Config =
    Config(methods: seq<byte>, hasAccount: bool, user: seq<byte>, password: seq<byte>, tcp: bool, address: seq<byte>,
           port: seq<byte>)
  {
    ghost predicate Valid() {
      |methods| == 4 && |address| in {4, 16} && |port| == 2
    }

    /** The account message; lengths are taken in one octet. */
    function Account(): (msg: seq<byte>)
      ensures var u, p := |user| % 256, |password| % 256;
        && |msg| == 3 + u + p <= 513 && msg[0] == 5 && msg[1] == u && msg[2..2 + u] == user[..u]
        && msg[2 + u] == p && msg[3 + u..] == password[..p]
    {
      [5, |user| % 256] + user[..|user| % 256] + [|password| % 256] + password[..|password| % 256]
    }

    /** The connect request of section 4 of RFC 1928, for an IPv4 or an IPv6 address. */
    function Request(): (msg: seq<byte>)
      requires Valid()
      ensures |msg| == 6 + |address| && msg[0] == 5 && msg[1] == (if tcp then 1 else 3) && msg[2] == 0
      ensures msg[3] == (if |address| == 4 then 1 else 4) && msg[4..4 + |address|] == address
      ensures msg[4 + |address|..] == port
    {
      [5, if tcp then 1 else 3, 0, if |address| == 4 then 1 else 4] + address + port
    }

    /** `containS5Verify` */
    predicate Allows(m: byte) {
      m in methods
    }
  }

  /** What the reactor and the client may bring a proxy; `offers` are the buffers the client would offer if told to. */
  datatype Happening =
    | Read(r: ReadResult, offers: seq<array<byte>>)
    | Writable(offers: seq<array<byte>>)
    | Broken(offers: seq<array<byte>>)
    | Sent(data: array<byte>)
    | Closed
  {
    /** One `read` gives at most what fits the static buffer. */
    predicate Legal() {
      Read? && r.Data? ==> 1 <= |r.bytes| <= SHARE_BUFFER_SIZE
    }

    function Octets(): seq<byte> {
      if Read? && r.Data? then r.bytes else []
    }
  }

  /** Everything the reads of a run gave. */
  function Received(script: seq<Happening>): seq<byte> {
    if script == [] then [] else Received(script[..|script| - 1]) + script[|script| - 1].Octets()
  }

  lemma {:induction false} ReceivedPrefix(script: seq<Happening>, i: nat)
    requires i <= |script|
    ensures Received(script[..i]) <= Received(script)
    decreases |script| - i
  {
    if i == |script| {
      assert script[..i] == script;
    } else {
      assert script[..i + 1][..i] == script[..i];
      ReceivedPrefix(script, i + 1);
    }
  }

  /** A reply to the method offer that the configuration allows: section 3 of RFC 1928. */
  ghost predicate MethodReply(msg: seq<byte>, m: byte, cfg: Config) {
    msg == [5, m] && cfg.Allows(m)
  }

  ghost predicate AccountReply(msg: seq<byte>) {
    msg == [5, 0]
  }

  /** A successful reply to the connect request: section 6 of RFC 1928. */
  ghost predicate ConnectReply(msg: seq<byte>) {
    |msg| >= 4 && msg[0] == 5 && msg[1] == 0
  }

  /** Where a reply to the method offer leads. */
  function AfterMethod(msg: seq<byte>, cfg: Config): State {
    if |msg| != 2 || msg[0] != 5 || !cfg.Allows(msg[1]) then FAILED
    else if msg[1] == VERIFY_NONE then CONNECT
    else if msg[1] == VERIFY_ACCOUNT then VERIFY
    else GREET
  }

  /** Where one message leads; in INIT and after a failure it is dropped, in TRANS it is payload. */
  function AfterMessage(state: State, msg: seq<byte>, cfg: Config): State {
    match state
    case GREET => AfterMethod(msg, cfg)
    case VERIFY => if msg == [5, 0] then CONNECT else FAILED
    case CONNECT => if |msg| >= 4 && msg[0] == 5 && msg[1] == 0 then TRANS else FAILED
    case END => FAILED
    case _ => state
  }

  /** The handshake octet by octet: sections 3 and 6 of RFC 1928. */
  lemma HandshakeTable(msg: seq<byte>, cfg: Config)
    ensures AfterMessage(GREET, msg, cfg) == CONNECT <==> msg == [5, 0] && 0 in cfg.methods
    ensures AfterMessage(GREET, msg, cfg) == VERIFY <==> msg == [5, 2] && 2 in cfg.methods
    ensures AfterMessage(GREET, msg, cfg) == GREET <==>
      |msg| == 2 && msg[0] == 5 && msg[1] in cfg.methods && msg[1] !in {0, 2}
    ensures AfterMessage(GREET, msg, cfg) in {GREET, VERIFY, CONNECT, FAILED}
    ensures AfterMessage(VERIFY, msg, cfg) == if msg == [5, 0] then CONNECT else FAILED
    ensures AfterMessage(CONNECT, msg, cfg) == if |msg| >= 4 && msg[0] == 5 && msg[1] == 0 then TRANS else FAILED
    ensures AfterMessage(TRANS, msg, cfg) == TRANS && AfterMessage(INIT, msg, cfg) == INIT
    ensures AfterMessage(FAILED, msg, cfg) == FAILED && AfterMessage(END, msg, cfg) == FAILED
  {
  }

  /** Where messages lead, one after the other. */
  function AfterMessages(state: State, messages: seq<seq<byte>>, cfg: Config): State {
    if messages == [] then state
    else AfterMessage(AfterMessages(state, messages[..|messages| - 1], cfg), messages[|messages| - 1], cfg)
  }

  lemma AfterOneMore(state: State, messages: seq<seq<byte>>, msg: seq<byte>, cfg: Config)
    ensures AfterMessages(state, messages + [msg], cfg) == AfterMessage(AfterMessages(state, messages, cfg), msg, cfg)
  {
    assert (messages + [msg])[..|messages|] == messages;
  }

  /** `messages` are what decrypt calls made of the parcels `ps`; they led from one state to the other. */
  ghost predicate Heard(start: State, messages: seq<seq<byte>>, state: State, ps: seq<Parcel>, cfg: Config) {
    && state == AfterMessages(start, messages, cfg)
    && Flat(messages) == PlainText(ps) && [] !in messages && |messages| <= |ps|
  }

  lemma HeardMore(start: State, messages: seq<seq<byte>>, state: State, ps: seq<Parcel>, cfg: Config,
                  msg: seq<byte>, batch: seq<Parcel>)
    requires Heard(start, messages, state, ps, cfg) && msg == PlainText(batch) && msg != []
    ensures Heard(start, messages + [msg], AfterMessage(state, msg, cfg), ps + batch, cfg)
  {
    hide AfterMessage, AfterMessages;
    AfterOneMore(start, messages, msg, cfg);
    FlatPush(messages, msg);
    PlainTextSplit(ps, batch);
    assert batch != [] by {
      assert PlainText([]) == [];
    }
  }

  lemma HeardNothing(state: State, cfg: Config)
    ensures Heard(state, [], state, [], cfg)
  {
  }

  /** The last messages received chose the account method. */
  ghost predicate AccountChosen(t: seq<seq<byte>>, cfg: Config) {
    |t| >= 1 && MethodReply(t[|t| - 1], VERIFY_ACCOUNT, cfg)
  }

  /** The last messages received allow a connect request. */
  ghost predicate Admitted(t: seq<seq<byte>>, cfg: Config) {
    || (|t| >= 1 && MethodReply(t[|t| - 1], VERIFY_NONE, cfg))
    || (|t| >= 2 && AccountChosen(t[..|t| - 1], cfg) && AccountReply(t[|t| - 1]))
  }

  /** The messages received end in a complete handshake. */
  ghost predicate Authorized(t: seq<seq<byte>>, cfg: Config) {
    |t| >= 1 && Admitted(t[..|t| - 1], cfg) && ConnectReply(t[|t| - 1])
  }

  lemma EstimateFits(len: nat)
    requires len <= MAX_ENCRYPT_SIZE
    ensures EstimateEncryptLen(len) <= SHARE_BUFFER_SIZE
  {
  }

  /** Queueing one more parcel keeps the queue in step with what was taken. */
  lemma QueueParcel(ps: seq<Parcel>, sent: seq<byte>, q: seq<seq<byte>>, p: Parcel)
    requires AllValid(ps) && p.Valid() && sent + Flat(q) == Wire(ps) && [] !in q
    ensures AllValid(ps + [p]) && [] !in q + [p.Ciphertext()]
    ensures sent + Flat(q + [p.Ciphertext()]) == Wire(ps + [p])
    ensures |Flat(q + [p.Ciphertext()])| == |Flat(q)| + |p.Ciphertext()|
    ensures 0 < |p.Ciphertext()| <= |p.plain| + 1030
    ensures |p.plain| <= 1021 ==> |p.Ciphertext()| <= 1031
  {
    hide Wire, Flat, Parcel.Ciphertext;
    FlatPush(q, p.Ciphertext());
    WireAppend(ps, p);
    CiphertextBounds(p);
    assert sent + (Flat(q) + p.Ciphertext()) == (sent + Flat(q)) + p.Ciphertext();
  }

  /** `send` took the first octets of the queue. */
  lemma SentPrefix(sent: seq<byte>, q: seq<byte>, bytes: seq<byte>, rest: seq<byte>, all: seq<byte>)
    requires sent + q == all && q == bytes + rest
    ensures (sent + bytes) + rest == all
  {
  }

  lemma StreamGrows(stream: seq<byte>, decrypted: seq<byte>, buffered: seq<byte>, bytes: seq<byte>)
    requires stream == decrypted + buffered
    ensures stream + bytes == decrypted + (buffered + bytes)
  {
  }

  class Socks5Proxy {
    const cfg: Config
    const cipher: Cipher
    /** The buffer all proxies share. */
    const sTemporary: array<byte>
    const mDecryptBuffer: Segment
    /** The unsent octets of each queued segment. */
    var mSocks5: seq<seq<byte>>
    var mOutQueue: seq<seq<byte>>
    var mAlive: bool
    var mConnected: bool
    var mSocketOpen: bool
    var mS5State: State
    var mPayloadDataBack: nat
    var mBufferedSize: nat

    /** What the network holds: the payload octets `send` took. */
    var wire: seq<byte>

    /** Parcels queued for the peer, payload and handshake, and the handshake octets `send` took. */
    ghost var taken: seq<Parcel>
    ghost var asked: seq<Parcel>
    ghost var askedWire: seq<byte>
    /** Whether the client handed over payload before the handshake was over. */
    ghost var early: bool

    /** Octets read, the parcels decrypted from them, and the messages those calls gave. */
    ghost var stream: seq<byte>
    ghost var incoming: seq<Parcel>
    ghost var trace: seq<seq<byte>>
    /** Octets handed to the client, and how often it was told that the tunnel is gone. */
    ghost var delivered: seq<byte>
    ghost var notified: nat
    /** On entering TRANS: parcels decrypted and messages received until then. */
    ghost var entered: bool
    ghost var parcelsAtEntry: nat
    ghost var messagesAtEntry: nat
    /** What `send` answered, and what happened, in order. */
    ghost var sends: seq<int>
    ghost var happened: seq<Happening>

    /** The buffers are pairwise different. */
    ghost predicate Shape()
      reads mDecryptBuffer
    {
      && cfg.Valid()
      && cipher.Valid() && sTemporary.Length == SHARE_BUFFER_SIZE && cipher.Foreign(sTemporary)
      && mDecryptBuffer.Valid() && mDecryptBuffer.mData.Length == 4 * MAX_PARCEL_SIZE
      && cipher.Foreign(mDecryptBuffer.mData) && sTemporary != mDecryptBuffer.mData
    }

    /** What leaves: everything taken from the client is sent or queued, in order, and counted. */
    ghost predicate Outbound()
      reads this`taken, this`wire, this`asked, this`askedWire, this`mOutQueue, this`mSocks5, this`mBufferedSize
    {
      && AllValid(taken) && wire + Flat(mOutQueue) == Wire(taken)
      && AllValid(asked) && askedWire + Flat(mSocks5) == Wire(asked)
      && mBufferedSize == |Flat(mOutQueue)| + |Flat(mSocks5)|
      && [] !in mOutQueue && [] !in mSocks5
    }

    /** How much may be queued. */
    ghost predicate Bounded()
      reads this`mS5State, this`mOutQueue, this`mSocks5, this`mBufferedSize, this`early, this`entered
    {
      BoundedIn(mS5State)
    }

    lemma BoundedLater(s: State, t: State)
      requires BoundedIn(s) && s.Requests() <= t.Requests()
      ensures BoundedIn(t)
    {
    }

    /**
     * Payload stops at the window, and is not taken before TRANS unless it was offered early; then the requests may
     * come on top of it.
     */
    ghost predicate BoundedIn(state: State)
      reads this`mOutQueue, this`mSocks5, this`mBufferedSize, this`early, this`entered
    {
      && |Flat(mSocks5)| <= 1031 * state.Requests()
      && |Flat(mOutQueue)| <= MAX_SEND_BUFFER + 1030
      && mBufferedSize <= MAX_SEND_BUFFER + 1030 + (if early then 1031 * state.Requests() else 0)
      && (!early && !entered ==> mOutQueue == [])
    }

    /** What arrives: whole parcels are decrypted, the rest stays in the decrypt buffer. */
    ghost predicate Inbound()
      requires Shape()
      reads this`incoming, this`stream, mDecryptBuffer, mDecryptBuffer.mData
    {
      && AllValid(incoming) && stream == Wire(incoming) + mDecryptBuffer.Contents()
    }

    /** What the client was told, and why. */
    ghost predicate Disclosed()
      reads this`entered, this`parcelsAtEntry, this`incoming, this`messagesAtEntry, this`trace, this`delivered,
            this`mS5State, this`notified, this`mSocketOpen, this`mPayloadDataBack
    {
      && (entered ==>
          && parcelsAtEntry <= |incoming| && messagesAtEntry <= |trace|
          && Authorized(trace[..messagesAtEntry], cfg)
          && delivered <= PlainText(incoming[parcelsAtEntry..]))
      && (!entered ==> delivered == [])
      && (mS5State.TRANS? ==>
          entered && delivered == PlainText(incoming[parcelsAtEntry..]) == Flat(trace[messagesAtEntry..]))
      && (mS5State.VERIFY? ==> AccountChosen(trace, cfg))
      && (mS5State.CONNECT? ==> Admitted(trace, cfg))
      && (mS5State.INIT? || mS5State.GREET? || mS5State.VERIFY? || mS5State.CONNECT? ==> !entered)
      && notified == (if mS5State.Over() then 1 else 0)
      && (mS5State.Over() ==> !mSocketOpen) && mPayloadDataBack == |delivered|
    }

    lemma DisclosedShaking()
      requires !entered && delivered == [] && mPayloadDataBack == 0 && notified == (if mS5State.Over() then 1 else 0)
      requires (mS5State.VERIFY? ==> AccountChosen(trace, cfg)) && (mS5State.CONNECT? ==> Admitted(trace, cfg))
      requires !mS5State.TRANS? && (mS5State.Over() ==> !mSocketOpen)
      ensures Disclosed()
    {
    }

    lemma DisclosedEntering()
      requires entered && parcelsAtEntry == |incoming| && messagesAtEntry == |trace| && Authorized(trace, cfg)
      requires delivered == [] && mPayloadDataBack == 0 && notified == 0 && mS5State.TRANS?
      ensures Disclosed()
    {
      hide Authorized;
      assert trace[..|trace|] == trace && incoming[|incoming|..] == [] && trace[|trace|..] == [];
    }

    ghost predicate Valid()
      reads this, mDecryptBuffer, mDecryptBuffer.mData
    {
      && Shape() && Outbound() && Bounded() && Inbound() && Disclosed()
      && |mDecryptBuffer.Contents()| < MAX_CIPHERTEXT
    }

    /** The messages before the first payload are a complete handshake. */
    ghost predicate Shaken()
      reads this`trace, this`messagesAtEntry
    {
      var t, n := trace, messagesAtEntry;
      && 2 <= n <= |t| && ConnectReply(t[n - 1])
      && (MethodReply(t[n - 2], VERIFY_NONE, cfg)
          || (n >= 3 && MethodReply(t[n - 3], VERIFY_ACCOUNT, cfg) && AccountReply(t[n - 2])))
    }

    /**
     * Payload reaches the client only after a method reply the configuration allows, an account reply when the
     * account method was chosen, and a successful connect reply; the client is told once that it is over.
     */
    lemma HandshakeFirst()
      requires Valid() && (delivered != [] || mS5State.TRANS?)
      ensures Shaken()
      ensures notified <= 1 && delivered <= PlainText(incoming[parcelsAtEntry..])
    {
      hide Wire, Flat, PlainText;
      var t := trace[..messagesAtEntry];
      assert Authorized(t, cfg);
      assert t[..|t| - 1][..|t| - 2] == trace[..|t| - 2];
    }

    constructor (cfg: Config, cipher: Cipher, sTemporary: array<byte>)
      requires cfg.Valid() && cipher.Valid() && cipher.Foreign(sTemporary) && sTemporary.Length == SHARE_BUFFER_SIZE
      ensures Valid() && mS5State.INIT? && !mAlive && !mConnected && !mSocketOpen && happened == []
      ensures taken == [] && wire == [] && stream == [] && incoming == [] && delivered == [] && !entered
      ensures trace == [] && fresh(mDecryptBuffer) && fresh(mDecryptBuffer.mData)
      ensures mDecryptBuffer.mData.Length == 0x8000
      ensures this.cfg == cfg && this.cipher == cipher && this.sTemporary == sTemporary
    {
      this.cfg, this.cipher, this.sTemporary := cfg, cipher, sTemporary;
      mDecryptBuffer := new Segment(4 * MAX_PARCEL_SIZE);
      mSocks5, mOutQueue := [], [];
      mAlive, mConnected, mSocketOpen, mS5State := false, false, false, INIT;
      mPayloadDataBack, mBufferedSize := 0, 0;
      taken, wire, asked, askedWire, early := [], [], [], [], false;
      stream, incoming, trace, delivered, notified := [], [], [], [], 0;
      entered, parcelsAtEntry, messagesAtEntry, sends, happened := false, 0, 0, [], [];
    }

    /** Nothing queued has all been sent. */
    lemma NothingQueued()
      requires Valid() && mOutQueue == []
      ensures wire == Wire(taken)
    {
      hide Wire;
    }

    /** No payload handed over, none decrypted. */
    lemma NothingYet()
      requires Valid() && mS5State.TRANS? && mPayloadDataBack == 0
      ensures parcelsAtEntry == |incoming|
    {
      hide Wire, PlainText, Flat, Parcel.Valid;
      var ps := incoming[parcelsAtEntry..];
      assert forall p <- ps :: p in incoming;
      if ps != [] {
        NeverEmpty(ps);
      }
    }

    /** Nothing read, nothing buffered. */
    lemma NothingBuffered()
      requires Valid() && stream == []
      ensures mDecryptBuffer.Contents() == [] && incoming == []
    {
      NothingRead([]);
    }

    /** `establish`, which may fail at any of its system calls. */
    method Establish(ok: bool) returns (r: int)
      requires Valid() && mS5State.INIT? && !mSocketOpen
      modifies this`mSocketOpen, this`mAlive
      ensures Valid() && (r == 0 <==> ok) && mSocketOpen == ok && mAlive == (ok || old(mAlive))
    {
      hide Wire, Flat, PlainText;
      if !ok {
        return 1;
      }
      mSocketOpen := true;
      mAlive := true;
      return 0;
    }

    /** What the send window of 2^18 octets has left. */
    function GetAvailableBufferSize(): (n: nat)
      reads this
      ensures mAlive && mBufferedSize <= 0x4_0000 ==> mBufferedSize + n == 0x4_0000
      ensures !mAlive || mBufferedSize > 0x4_0000 ==> n == 0
    {
      if !mAlive then 0
      else if mBufferedSize > MAX_SEND_BUFFER then 0
      else MAX_SEND_BUFFER - mBufferedSize
    }

    /** Encrypts up to MAX_ENCRYPT_SIZE octets into a segment for the end of `queue`; gives how many it took. */
    method EncryptAndQueue(queue: seq<seq<byte>>, data: array<byte>, dp: nat, len: nat)
      returns (queue': seq<seq<byte>>, r: nat, ghost parcel: Parcel)
      requires Shape()
      requires data != sTemporary && cipher.Foreign(data) && dp + len <= data.Length
      modifies this`mBufferedSize, sTemporary, cipher.mBuffer, cipher.mBuffer1
      ensures len == 0 ==> r == 0 && queue' == queue && mBufferedSize == old(mBufferedSize)
      ensures len > 0 ==>
        && r == Taken(len) && parcel.Valid() && parcel.plain == data[dp..dp + r]
        && queue' == queue + [parcel.Ciphertext()]
        && mBufferedSize == old(mBufferedSize) + |parcel.Ciphertext()|
    {
      EstimateFits(Taken(len));
      var t, l;
      t, l, parcel := cipher.Encrypt(data, dp, len, sTemporary, SHARE_BUFFER_SIZE);
      if len > 0 {
        CiphertextBounds(parcel);
      }
      if l > 0 {
        queue' := queue + [sTemporary[..l]];
        mBufferedSize := mBufferedSize + l;
        return queue', t - dp, parcel;
      }
      return queue, l, parcel;
    }

    /** Takes client payload: all of it up to one parcel when it fits the send window, else nothing. */
    method SendData(data: array<byte>, dp: nat, len: nat) returns (r: nat)
      requires Shape() && Outbound() && Bounded()
      requires data != sTemporary && cipher.Foreign(data) && dp + len <= data.Length
      modifies this`mOutQueue, this`mBufferedSize, this`taken, this`early, sTemporary, cipher.mBuffer, cipher.mBuffer1
      ensures Outbound() && Bounded()
      ensures r == if len == 0 || old(GetAvailableBufferSize()) < len then 0 else Taken(len)
      ensures r == 0 ==> taken == old(taken)
      ensures r > 0 ==> TookOne(old(taken), data[dp..dp + r])
      ensures early == (old(early) || (r > 0 && !entered))
    {
      hide Wire, Flat, Parcel.Ciphertext;
      if !mAlive {
        return 0;
      }
      if GetAvailableBufferSize() < len {
        return 0;
      }
      ghost var q, parcel := mOutQueue, Parcel([], 0, []);
      mOutQueue, r, parcel := EncryptAndQueue(mOutQueue, data, dp, len);
      if len > 0 {
        QueueParcel(taken, wire, q, parcel);
        taken := taken + [parcel];
        early := early || !entered;
      }
    }

    /** One more request was queued. */
    ghost predicate Asked(before: seq<Parcel>, msg: seq<byte>)
      reads this`asked
    {
      |asked| == |before| + 1 && asked[..|before|] == before && asked[|before|].plain == msg
    }

    ghost predicate TookOne(before: seq<Parcel>, plain: seq<byte>)
      reads this`taken
    {
      |taken| == |before| + 1 && taken[..|before|] == before && taken[|before|].plain == plain
    }

    /** `send` on a buffer that is not empty: an error, or some of the buffer. */
    method Send(size: nat) returns (s: int)
      requires size > 0
      modifies this`sends
      ensures (s == -1 || 1 <= s <= size) && sends == old(sends) + [s]
    {
      if * {
        s := -1;
      } else {
        s :| 1 <= s <= size;
      }
      sends := sends + [s];
    }

    /** Whatever is left in a queue is left because the socket took no more. */
    ghost predicate Tried(queue: seq<seq<byte>>, before: seq<int>)
      reads this`sends
    {
      before <= sends && (queue != [] ==> |before| < |sends| && sends[|sends| - 1] < 0)
    }

    /** Sends from the front of `queue` until it is empty or the socket takes no more. */
    method SendQueue(queue: seq<seq<byte>>) returns (queue': seq<seq<byte>>, sent: nat, bytes: seq<byte>)
      requires [] !in queue && |Flat(queue)| <= mBufferedSize
      modifies this`mBufferedSize, this`sends
      ensures Tried(queue', old(sends))
      ensures Flat(queue) == bytes + Flat(queue') && |bytes| == sent && [] !in queue'
      ensures mBufferedSize == old(mBufferedSize) - sent
    {
      hide Flat;
      sent, bytes, queue' := 0, [], queue;
      while queue' != []
        invariant [] !in queue' && mBufferedSize == old(mBufferedSize) && old(sends) <= sends
        invariant Flat(queue) == bytes + Flat(queue') && |bytes| == sent
        decreases |Flat(queue')|
      {
        assert queue'[0] in queue';
        var s := Send(|queue'[0]|);
        if s < 0 {
          break;
        }
        FlatConsumeFront(queue', s);
        ghost var all := Flat(queue');
        bytes := bytes + queue'[0][..s];
        assert all == all[..s] + all[s..];
        sent := sent + s;
        queue' := ConsumeFront(queue', s);
      }
      if sent > 0 {
        mBufferedSize := mBufferedSize - sent;
      }
    }

    /** `destroyTunnel`: the socket leaves the reactor and is closed. */
    method DestroyTunnel()
      modifies this`mConnected, this`mAlive, this`mSocketOpen
      ensures !mAlive && !mConnected && !mSocketOpen
    {
      mConnected := false;
      mAlive := false;
      mSocketOpen := false;
    }

    /** Nothing is taken from the client but what it offers. */
    twostate predicate TookFrom(offers: seq<array<byte>>)
      reads this`taken
    {
      old(taken) <= taken && (offers == [] ==> taken == old(taken))
    }

    /** The first buffer offered fits the send window. */
    predicate WouldTake(offers: seq<array<byte>>)
      reads this
    {
      offers != [] && 0 < offers[0].Length <= GetAvailableBufferSize()
    }

    /** The first parcel made since holds `plain`. */
    ghost predicate Grew(before: seq<Parcel>, plain: seq<byte>)
      reads this`taken
    {
      |before| < |taken| && taken[|before|].plain == plain
    }

    /** The client, told that it may write, offers its pending buffers until one is not taken. */
    method ClientWritable(offers: seq<array<byte>>)
      requires Shape() && Outbound() && Bounded() && Offered(offers)
      modifies this`mOutQueue, this`mBufferedSize, this`taken, this`early, sTemporary, cipher.mBuffer, cipher.mBuffer1
      ensures Outbound() && Bounded() && TookFrom(offers)
      ensures old(WouldTake(offers)) ==>
        Grew(old(taken), offers[0][..Taken(offers[0].Length)])
      ensures entered ==> early == old(early)
    {
      hide Wire, Flat, Parcel.Ciphertext;
      for i := 0 to |offers|
        invariant Outbound() && Bounded() && old(taken) <= taken
        invariant entered ==> early == old(early)
        invariant i == 0 ==> taken == old(taken) && WouldTake(offers) == old(WouldTake(offers))
        invariant i > 0 && old(WouldTake(offers)) ==> Grew(old(taken), offers[0][..Taken(offers[0].Length)])
      {
        var offer, off := offers[i], 0;
        assert offers[0] in offers && offer in offers;
        while off < offer.Length
          invariant off <= offer.Length
          invariant Outbound() && Bounded() && old(taken) <= taken
          invariant entered ==> early == old(early)
          invariant i == 0 && off == 0 ==> taken == old(taken) && WouldTake(offers) == old(WouldTake(offers))
          invariant (i > 0 || off > 0) && old(WouldTake(offers)) ==>
            Grew(old(taken), offers[0][..Taken(offers[0].Length)])
        {
          var s := SendData(offer, off, offer.Length - off);
          if s <= 0 {
            return;
          }
          off := off + s;
        }
      }
    }

    /** Client buffers are none of the proxy's. */
    ghost predicate Offered(offers: seq<array<byte>>) {
      forall a <- offers :: a != sTemporary && cipher.Foreign(a)
    }

    /** Enters `state`: on TRANS the client may write, on END or FAILED it is told and the socket is closed. */
    method SwitchS5State(state: State, offers: seq<array<byte>>)
      requires Shape() && Outbound() && BoundedIn(state) && Offered(offers)
      modifies this`mS5State, this`mOutQueue, this`mBufferedSize, this`taken, this`early, this`notified,
               this`mConnected, this`mAlive, this`mSocketOpen, sTemporary, cipher.mBuffer, cipher.mBuffer1
      ensures Outbound() && Bounded() && mS5State == state && TookFrom(offers)
      ensures notified == old(notified) + (if old(mS5State) != state && state.Over() then 1 else 0)
      ensures old(mS5State) != state && state.Over() ==> !mSocketOpen && !mConnected && !mAlive
      ensures old(mS5State) == state || !state.Over() ==> mSocketOpen == old(mSocketOpen)
      ensures entered ==> early == old(early)
      ensures !state.Over() ==> mConnected == old(mConnected) && mAlive == old(mAlive)
      ensures old(mS5State) == state ==> unchanged(this)
    {
      hide Wire, Flat, Parcel.Ciphertext;
      if mS5State != state {
        mS5State := state;
        match mS5State {
          case TRANS => ClientWritable(offers);
          case FAILED =>
            notified := notified + 1;
            DestroyTunnel();
          case END =>
            notified := notified + 1;
            DestroyTunnel();
          case _ =>
        }
      }
    }

    /** Encrypts a handshake request and queues it. */
    method SendRequest(msg: seq<byte>, ghost next: State)
      requires Shape() && Outbound() && Bounded() && 1 <= |msg| <= 1021
      requires !entered && mS5State.Requests() < next.Requests()
      modifies this`mSocks5, this`mBufferedSize, this`asked, sTemporary, cipher.mBuffer, cipher.mBuffer1
      ensures Outbound() && BoundedIn(next)
      ensures Asked(old(asked), msg)
    {
      hide Wire, Flat, Parcel.Ciphertext;
      var a := new byte[|msg|](i requires 0 <= i < |msg| => msg[i]);
      ghost var q, parcel := mSocks5, Parcel([], 0, []);
      assert a[0..|msg|] == msg;
      var r;
      mSocks5, r, parcel := EncryptAndQueue(mSocks5, a, 0, a.Length);
      QueueParcel(asked, askedWire, q, parcel);
      asked := asked + [parcel];
      assert mOutQueue == [] ==> Flat(mOutQueue) == [] by { FlatNone(); }
    }

    /** `containS5Verify` on the configured method word. */
    method ContainS5Verify(m: byte) returns (r: bool)
      requires cfg.Valid()
      ensures r == cfg.Allows(m)
    {
      var i := 0;
      while i < 4
        invariant i <= 4 && m !in cfg.methods[..i]
      {
        if cfg.methods[i] == m {
          return true;
        }
        i := i + 1;
      }
      assert cfg.methods[..4] == cfg.methods;
      return false;
    }

    /** Before the handshake is over nothing has been disclosed; `msg` is the newest message. */
    ghost predicate Shaking(msg: seq<byte>)
      reads this`entered, this`delivered, this`notified, this`trace, this`mPayloadDataBack
    {
      && !entered && delivered == [] && notified == 0 && mPayloadDataBack == 0
      && |trace| >= 1 && trace[|trace| - 1] == msg
    }

    method HandleS5GreetBack(len: nat, offers: seq<array<byte>>, ghost msg: seq<byte>)
      requires Shape() && Outbound() && Bounded() && Offered(offers)
      requires mS5State.GREET? && Shaking(msg) && len <= SHARE_BUFFER_SIZE && sTemporary[..len] == msg
      modifies this`mS5State, this`mOutQueue, this`mSocks5, this`mBufferedSize, this`taken, this`asked, this`early,
               this`notified, this`mConnected, this`mAlive, this`mSocketOpen, sTemporary, cipher.mBuffer,
               cipher.mBuffer1
      ensures Outbound() && Bounded() && Disclosed() && TookFrom(offers) && !mS5State.END?
      ensures mS5State == AfterMessage(GREET, msg, cfg) && (!mS5State.FAILED? ==> mSocketOpen == old(mSocketOpen))
      ensures mSocketOpen ==> old(mSocketOpen) && mConnected == old(mConnected)
      ensures asked == old(asked) || Asked(old(asked), if mS5State.CONNECT? then cfg.Request() else cfg.Account())
      ensures asked == old(asked) <==> mS5State.FAILED? || mS5State.GREET? || (mS5State.VERIFY? && !cfg.hasAccount)
    {
      hide PlainText, Config.Account, Config.Request, Socks5Proxy.Outbound, Socks5Proxy.BoundedIn;
      hide Socks5Proxy.Disclosed;
      BoundedLater(mS5State, FAILED);
      if len != 2 {
        SwitchS5State(FAILED, offers);
        DisclosedShaking();
        return;
      }
      assert msg == [sTemporary[0], sTemporary[1]];
      if sTemporary[0] == 5 {
        var allowed := ContainS5Verify(sTemporary[1]);
        if allowed {
          if sTemporary[1] == VERIFY_NONE {
            SendRequest(cfg.Request(), CONNECT);
            SwitchS5State(CONNECT, offers);
          } else if sTemporary[1] == VERIFY_ACCOUNT {
            BoundedLater(mS5State, VERIFY);
            if cfg.hasAccount {
              SendRequest(cfg.Account(), VERIFY);
            }
            SwitchS5State(VERIFY, offers);
          }
          DisclosedShaking();
          return;
        }
      }
      SwitchS5State(FAILED, offers);
      DisclosedShaking();
    }

    method HandleS5VerifyBack(len: nat, offers: seq<array<byte>>, ghost msg: seq<byte>)
      requires Shape() && Outbound() && Bounded() && Offered(offers)
      requires mS5State.VERIFY? && Shaking(msg) && len <= SHARE_BUFFER_SIZE && sTemporary[..len] == msg
      requires AccountChosen(trace[..|trace| - 1], cfg)
      modifies this`mS5State, this`mOutQueue, this`mSocks5, this`mBufferedSize, this`taken, this`asked, this`early,
               this`notified, this`mConnected, this`mAlive, this`mSocketOpen, sTemporary, cipher.mBuffer,
               cipher.mBuffer1
      ensures Outbound() && Bounded() && Disclosed() && TookFrom(offers) && !mS5State.END?
      ensures mS5State == AfterMessage(VERIFY, msg, cfg) && (!mS5State.FAILED? ==> mSocketOpen == old(mSocketOpen))
      ensures mSocketOpen ==> old(mSocketOpen) && mConnected == old(mConnected)
      ensures if AccountReply(msg) then Asked(old(asked), cfg.Request()) else asked == old(asked)
    {
      hide PlainText, Socks5Proxy.Outbound, Socks5Proxy.BoundedIn, Socks5Proxy.Disclosed;
      BoundedLater(mS5State, FAILED);
      if len != 2 || sTemporary[0] != 5 || sTemporary[1] != 0 {
        SwitchS5State(FAILED, offers);
        DisclosedShaking();
        return;
      }
      assert msg == [5, 0];
      SendRequest(cfg.Request(), CONNECT);
      SwitchS5State(CONNECT, offers);
      DisclosedShaking();
    }

    /** The handshake is over. */
    ghost method Enter()
      requires Outbound() && Bounded()
      modifies this`entered, this`parcelsAtEntry, this`messagesAtEntry
      ensures Outbound() && BoundedIn(TRANS) && entered && parcelsAtEntry == |incoming| && messagesAtEntry == |trace|
    {
      hide Flat, Wire;
      entered, parcelsAtEntry, messagesAtEntry := true, |incoming|, |trace|;
    }

    method HandleS5ConnBack(len: nat, offers: seq<array<byte>>, ghost msg: seq<byte>)
      requires Shape() && Outbound() && Bounded() && Offered(offers)
      requires mS5State.CONNECT? && Shaking(msg) && len <= SHARE_BUFFER_SIZE && sTemporary[..len] == msg
      requires Admitted(trace[..|trace| - 1], cfg)
      modifies this`mS5State, this`mOutQueue, this`mBufferedSize, this`taken, this`early, this`notified,
               this`mConnected, this`mAlive, this`mSocketOpen, this`entered, this`parcelsAtEntry, this`messagesAtEntry,
               sTemporary, cipher.mBuffer, cipher.mBuffer1
      ensures Outbound() && Bounded() && Disclosed() && TookFrom(offers) && !mS5State.END?
      ensures mS5State == AfterMessage(CONNECT, msg, cfg) && (!mS5State.FAILED? ==> mSocketOpen == old(mSocketOpen))
      ensures mSocketOpen ==> old(mSocketOpen) && mConnected == old(mConnected)
    {
      hide PlainText, Flat, Socks5Proxy.Outbound, Socks5Proxy.Disclosed, Socks5Proxy.BoundedIn, Admitted;
      BoundedLater(mS5State, FAILED);
      if len < 4 || sTemporary[0] != 5 || sTemporary[1] != 0 {
        SwitchS5State(FAILED, offers);
        DisclosedShaking();
        return;
      }
      assert msg[0] == 5 && msg[1] == 0;
      Enter();
      SwitchS5State(TRANS, offers);
      DisclosedEntering();
    }

    /** Payload goes to the client, which may close the tunnel. */
    method HandlePayload(len: nat, ghost batch: seq<Parcel>)
      requires Disclosed() && mS5State.TRANS? && parcelsAtEntry <= |incoming|
      requires len <= sTemporary.Length && sTemporary[..len] == PlainText(batch)
      modifies this`mPayloadDataBack, this`delivered, this`incoming, this`trace, this`mConnected, this`mAlive
      modifies this`mSocketOpen
      ensures Disclosed() && (mSocketOpen ==> old(mSocketOpen) && mConnected == old(mConnected))
      ensures incoming == old(incoming) + batch && trace == old(trace) + [PlainText(batch)]
    {
      hide PlainText, Flat, Authorized;
      DeliverBatch(incoming, parcelsAtEntry, batch);
      assert (trace + [PlainText(batch)])[..messagesAtEntry] == trace[..messagesAtEntry];
      assert (trace + [PlainText(batch)])[messagesAtEntry..] == trace[messagesAtEntry..] + [PlainText(batch)];
      FlatPush(trace[messagesAtEntry..], PlainText(batch));
      incoming, trace := incoming + batch, trace + [PlainText(batch)];
      mPayloadDataBack := mPayloadDataBack + len;
      delivered := delivered + sTemporary[..len];
      if * {
        DestroyTunnel();
      }
    }

    /** A message that arrives after the end is dropped. */
    ghost method DropMessage(batch: seq<Parcel>)
      requires Disclosed() && (mS5State.INIT? || mS5State.FAILED?)
      modifies this`incoming, this`trace
      ensures Disclosed()
      ensures incoming == old(incoming) + batch && trace == old(trace) + [PlainText(batch)]
    {
      hide PlainText, Authorized;
      if entered {
        DeliverBatch(incoming, parcelsAtEntry, batch);
        assert (trace + [PlainText(batch)])[..messagesAtEntry] == trace[..messagesAtEntry];
      }
      incoming, trace := incoming + batch, trace + [PlainText(batch)];
    }

    lemma EnteredAt()
      requires Disclosed() && mS5State.TRANS?
      ensures parcelsAtEntry <= |incoming|
    {
    }

    /** A message of the handshake. */
    ghost method Hear(batch: seq<Parcel>) returns (msg: seq<byte>)
      requires Outbound() && Bounded() && Disclosed() && (mS5State.GREET? || mS5State.VERIFY? || mS5State.CONNECT?)
      modifies this`incoming, this`trace
      ensures Outbound() && Bounded() && msg == PlainText(batch) && Shaking(msg)
      ensures incoming == old(incoming) + batch && trace == old(trace) + [msg]
      ensures mS5State.VERIFY? ==> AccountChosen(trace[..|trace| - 1], cfg)
      ensures mS5State.CONNECT? ==> Admitted(trace[..|trace| - 1], cfg)
    {
      hide PlainText, Socks5Proxy.Outbound, Socks5Proxy.BoundedIn, Admitted, AccountChosen, Authorized;
      msg := PlainText(batch);
      assert (trace + [msg])[..|trace|] == trace;
      incoming, trace := incoming + batch, trace + [msg];
    }

    /** Hands one decrypted message, the plaintext of `batch`, to the handshake or to the client. */
    method HandleMessage(len: nat, offers: seq<array<byte>>, ghost batch: seq<Parcel>)
      requires Shape() && Outbound() && Bounded() && Disclosed() && Offered(offers) && !mS5State.END?
      requires len <= SHARE_BUFFER_SIZE && sTemporary[..len] == PlainText(batch)
      modifies this, sTemporary, cipher.mBuffer, cipher.mBuffer1
      ensures happened == old(happened)
      ensures Outbound() && Bounded() && Disclosed() && TookFrom(offers) && !mS5State.END?
      ensures incoming == old(incoming) + batch && stream == old(stream) && wire == old(wire)
      ensures old(mS5State.TRANS?) ==> mS5State.TRANS? && taken == old(taken) && parcelsAtEntry == old(parcelsAtEntry)
      ensures trace == old(trace) + [PlainText(batch)] && mS5State == AfterMessage(old(mS5State), PlainText(batch), cfg)
      ensures mSocketOpen ==> old(mSocketOpen) && mConnected == old(mConnected)
      ensures mS5State.Shaking() ==> old(mS5State.Shaking()) && mSocketOpen == old(mSocketOpen)
    {
      hide PlainText, Socks5Proxy.Outbound, Socks5Proxy.BoundedIn, Socks5Proxy.Disclosed, Socks5Proxy.Shaking;
      hide Config.Valid, AccountChosen, Admitted, AfterMethod;
      if mS5State.TRANS? {
        EnteredAt();
        HandlePayload(len, batch);
      } else if mS5State.INIT? {
        DropMessage(batch);
      } else if mS5State.FAILED? {
        DropMessage(batch);
        SwitchS5State(FAILED, offers);
      } else {
        ghost var msg := Hear(batch);
        if mS5State.GREET? {
          HandleS5GreetBack(len, offers, msg);
        } else if mS5State.VERIFY? {
          HandleS5VerifyBack(len, offers, msg);
        } else {
          HandleS5ConnBack(len, offers, msg);
        }
      }
    }

    /**
     * One `decrypt` call on at most SHARE_BUFFER_SIZE buffered octets; they are the front of the ciphertext of
     * `next`, of which it takes the first `k` parcels.
     */
    method DecryptBuffered(ghost next: seq<Parcel>) returns (length: nat, ghost k: nat)
      requires Shape() && AllValid(next) && Onto(mDecryptBuffer.Contents(), next)
      modifies mDecryptBuffer`mPos, sTemporary, cipher.mBuffer, cipher.mBuffer1
      ensures Shape() && length <= SHARE_BUFFER_SIZE
      ensures k <= |next| && sTemporary[..length] == PlainText(next[..k])
      ensures old(mDecryptBuffer.Contents()) == Wire(next[..k]) + mDecryptBuffer.Contents()
      ensures Onto(mDecryptBuffer.Contents(), next[k..])
      ensures length > 0 ==> |mDecryptBuffer.Contents()| < |old(mDecryptBuffer.Contents())|
      ensures length == 0 ==> k == 0 && IsWholeCount(next, |mDecryptBuffer.Contents()|, 0)
      ensures length == 0 ==> mDecryptBuffer.Contents() == old(mDecryptBuffer.Contents())
    {
      hide Wire, PlainText, IsWholeCount, Onto;
      ghost var contents := mDecryptBuffer.Contents();
      var p := mDecryptBuffer.mPos;
      var size := if mDecryptBuffer.Size() > SHARE_BUFFER_SIZE then SHARE_BUFFER_SIZE else mDecryptBuffer.Size();
      WindowOnto(contents, size, next);
      SubArray(mDecryptBuffer.mData, p, |contents|, 0, size);
      var s;
      s, length, k := cipher.Decrypt(mDecryptBuffer.mData, p, size, sTemporary, SHARE_BUFFER_SIZE, next);
      WindowDecrypted(contents, size, next, k);
      assert mDecryptBuffer.Contents() == contents;
      if length > 0 {
        mDecryptBuffer.Consume(s - p);
      }
      assert contents[0..] == contents;
    }

    /** Decrypts and handles messages until no whole parcel is left in the decrypt buffer. */
    method DrainDecryptBuffer(offers: seq<array<byte>>, ghost next: seq<Parcel>) returns (ghost k: nat)
      requires Shape() && Outbound() && Bounded() && Inbound() && Disclosed() && Offered(offers) && !mS5State.END?
      requires AllValid(next) && Onto(mDecryptBuffer.Contents(), next)
      modifies this, mDecryptBuffer`mPos, sTemporary, cipher.mBuffer, cipher.mBuffer1
      ensures happened == old(happened)
      ensures Shape() && Outbound() && Bounded() && Inbound() && Disclosed()
      ensures k <= |next| && incoming == old(incoming) + next[..k] && stream == old(stream)
      ensures Onto(mDecryptBuffer.Contents(), next[k..]) && IsWholeCount(next[k..], |mDecryptBuffer.Contents()|, 0)
      ensures TookFrom(offers) && wire == old(wire)
      ensures old(mS5State.TRANS?) ==> mS5State.TRANS? && taken == old(taken) && parcelsAtEntry == old(parcelsAtEntry)
      ensures old(trace) <= trace && Heard(old(mS5State), trace[|old(trace)|..], mS5State, next[..k], cfg)
      ensures mS5State.Shaking() ==> mSocketOpen == old(mSocketOpen)
      ensures mSocketOpen ==> old(mSocketOpen) && mConnected == old(mConnected)
    {
      hide Wire, PlainText, IsWholeCount, Onto, Socks5Proxy.Outbound, Socks5Proxy.Bounded, Socks5Proxy.Disclosed;
      hide Heard, AfterMessage, AfterMessages;
      k := 0;
      assert next[0..] == next && next[..0] == [];
      HeardNothing(mS5State, cfg);
      ghost var messages := [];
      while true
        invariant Shape() && Outbound() && Bounded() && Inbound() && Disclosed() && !mS5State.END?
        invariant k <= |next| && Onto(mDecryptBuffer.Contents(), next[k..])
        invariant incoming == old(incoming) + next[..k] && stream == old(stream)
        invariant TookFrom(offers) && wire == old(wire) && happened == old(happened)
        invariant old(mS5State.TRANS?) ==>
          mS5State.TRANS? && taken == old(taken) && parcelsAtEntry == old(parcelsAtEntry)
        invariant mS5State.Shaking() ==> mSocketOpen == old(mSocketOpen)
        invariant mSocketOpen ==> old(mSocketOpen) && mConnected == old(mConnected)
        invariant trace == old(trace) + messages && Heard(old(mS5State), messages, mS5State, next[..k], cfg)
        decreases |mDecryptBuffer.Contents()|
      {
        ghost var rest, contents := next[k..], mDecryptBuffer.Contents();
        var length;
        ghost var j;
        length, j := DecryptBuffered(rest);
        if length <= 0 {
          assert (old(trace) + messages)[|old(trace)|..] == messages;
          return;
        }
        DecryptedMore(incoming, next, k, j, stream, mDecryptBuffer.Contents());
        HeardMore(old(mS5State), messages, mS5State, next[..k], cfg, PlainText(rest[..j]), rest[..j]);
        HandleMessage(length, offers, rest[..j]);
        messages := messages + [PlainText(rest[..j])];
        k := k + j;
      }
    }

    /**
     * The reactor found the socket readable; `read` gave `r`. Octets that arrive go on with the ciphertext of
     * `next`, and nothing that a peer encrypts overflows the decrypt buffer.
     */
    method OnReadable(r: ReadResult, offers: seq<array<byte>>, ghost next: seq<Parcel>) returns (ghost k: nat)
      requires Valid() && mSocketOpen && Offered(offers)
      requires r.Data? ==> 1 <= |r.bytes| <= SHARE_BUFFER_SIZE
      requires r.Data? ==> AllValid(next) && Onto(mDecryptBuffer.Contents() + r.bytes, next)
      modifies this, mDecryptBuffer, mDecryptBuffer.mData, sTemporary, cipher.mBuffer, cipher.mBuffer1
      ensures Valid() && TookFrom(offers) && wire == old(wire)
      ensures stream == old(stream) + if r.Data? then r.bytes else []
      ensures k <= |next| && incoming == old(incoming) + next[..k]
      ensures r.Data? ==>
        Onto(mDecryptBuffer.Contents(), next[k..]) && IsWholeCount(next[k..], |mDecryptBuffer.Contents()|, 0)
      ensures old(mS5State.TRANS?) && r.Data? ==>
        mS5State.TRANS? && taken == old(taken) && parcelsAtEntry == old(parcelsAtEntry)
      ensures happened == old(happened)
      ensures r.Error? && r.retry ==> unchanged(this)
      ensures r.Eof? ==> mS5State.END? && notified == 1
      ensures r.Error? && !r.retry ==> mS5State.FAILED? && notified == 1
      ensures old(trace) <= trace
      ensures r.Data? ==> Heard(old(mS5State), trace[|old(trace)|..], mS5State, next[..k], cfg)
      ensures mS5State.Shaking() ==> mSocketOpen
      ensures r.Data? && mSocketOpen ==> mConnected
      ensures !r.Data? ==> k == 0 && trace == old(trace) && mDecryptBuffer.Contents() == old(mDecryptBuffer.Contents())
    {
      hide Heard;
      hide Wire, PlainText, IsWholeCount, Onto, Socks5Proxy.Outbound, Socks5Proxy.BoundedIn, Socks5Proxy.Disclosed;
      k := 0;
      match r {
        case Error(retry) =>
          if !retry {
            Finish(FAILED, offers);
          }
        case Eof =>
          Finish(END, offers);
        case Data(bytes) =>
          if !mConnected {
            mConnected := true;
          }
          OpenIsNotOver();
          Receive(bytes);
          k := DrainDecryptBuffer(offers, next);
          StuckBound(mDecryptBuffer.Contents(), next[k..]);
      }
    }

    lemma OpenIsNotOver()
      requires Disclosed() && mSocketOpen
      ensures !mS5State.Over()
    {
    }

    /** `switchS5State` to an end state from a callback of the reactor. */
    method Finish(state: State, offers: seq<array<byte>>)
      requires Shape() && Outbound() && Bounded() && Disclosed() && Offered(offers)
      requires mSocketOpen && state.Over()
      modifies this`mS5State, this`mOutQueue, this`mBufferedSize, this`taken, this`early, this`notified,
               this`mConnected, this`mAlive, this`mSocketOpen, sTemporary, cipher.mBuffer, cipher.mBuffer1
      ensures Outbound() && Bounded() && Disclosed() && TookFrom(offers)
      ensures mS5State == state && notified == 1 && !mSocketOpen && !mConnected && !mAlive
    {
      hide Wire, PlainText, Socks5Proxy.Outbound, Socks5Proxy.BoundedIn;
      BoundedLater(mS5State, state);
      SwitchS5State(state, offers);
    }

    /** Puts what `read` gave at the end of the decrypt buffer, making room first. */
    method Receive(bytes: seq<byte>)
      requires Shape() && Inbound() && 1 <= |bytes| <= SHARE_BUFFER_SIZE
      requires |mDecryptBuffer.Contents()| < MAX_CIPHERTEXT
      modifies this`stream, mDecryptBuffer, mDecryptBuffer.mData, sTemporary
      ensures Shape() && Inbound() && stream == old(stream) + bytes
      ensures mDecryptBuffer.Contents() == old(mDecryptBuffer.Contents()) + bytes
    {
      hide Wire, AllValid;
      StreamGrows(stream, Wire(incoming), mDecryptBuffer.Contents(), bytes);
      forall i | 0 <= i < |bytes| {
        sTemporary[i] := bytes[i];
      }
      assert sTemporary[0..|bytes|] == bytes;
      if mDecryptBuffer.Remain() < |bytes| {
        mDecryptBuffer.Flip();
      }
      if mDecryptBuffer.Remain() < |bytes| {
        assert false;
      }
      var w := mDecryptBuffer.Write(sTemporary, 0, |bytes|);
      stream := stream + bytes;
    }

    /** Payload queued goes first; with none queued the client may write. */
    method WritePayload(offers: seq<array<byte>>)
      requires Shape() && Outbound() && Bounded() && Disclosed() && mS5State.TRANS? && Offered(offers)
      modifies this`mOutQueue, this`mBufferedSize, this`wire, this`sends, this`taken, this`early
      modifies sTemporary, cipher.mBuffer, cipher.mBuffer1
      ensures Outbound() && Bounded() && TookFrom(offers) && old(wire) <= wire
      ensures old(mOutQueue) != [] ==> Tried(mOutQueue, old(sends))
      ensures old(mOutQueue == [] && WouldTake(offers)) ==> Grew(old(taken), offers[0][..Taken(offers[0].Length)])
    {
      hide Wire, Flat, PlainText, Socks5Proxy.Outbound, Socks5Proxy.BoundedIn;
      if mOutQueue != [] {
        FlushPayload();
      } else {
        ClientWritable(offers);
      }
    }

    /** The reactor found the socket writable. */
    method OnWritable(offers: seq<array<byte>>)
      requires Valid() && mSocketOpen && Offered(offers)
      modifies this, sTemporary, cipher.mBuffer, cipher.mBuffer1
      ensures happened == old(happened)
      ensures Valid() && TookFrom(offers) && old(wire) <= wire
      ensures stream == old(stream) && incoming == old(incoming) && delivered == old(delivered)
      ensures if old(mS5State.INIT?) then mS5State.GREET? && Asked(old(asked), GreetMessage())
        else mS5State == old(mS5State) && asked == old(asked)
      ensures old(mS5State.TRANS? && mOutQueue == [] && WouldTake(offers)) ==>
        Grew(old(taken), offers[0][..Taken(offers[0].Length)])
      ensures mConnected
      ensures old(mS5State.TRANS? && mOutQueue != []) ==> Tried(mOutQueue, old(sends))
      ensures !old(mS5State.TRANS?) && old(mSocks5) != [] && !old(mS5State.INIT?) ==> Tried(mSocks5, old(sends))
      ensures mSocketOpen && trace == old(trace) && mDecryptBuffer.Contents() == old(mDecryptBuffer.Contents())
    {
      hide Wire, Flat, PlainText, Socks5Proxy.Outbound, Socks5Proxy.BoundedIn, Socks5Proxy.Disclosed;
      hide Parcel.Valid, Parcel.Ciphertext, Offerable, Socks5Proxy.GetAvailableBufferSize;
      if !mConnected {
        mConnected := true;
      }
      if mS5State.TRANS? {
        WritePayload(offers);
      } else if mS5State.INIT? {
        StartHandshake(offers);
      } else if mSocks5 != [] {
        FlushHandshake();
      }
    }

    /** `getS5VerifyMethods` puts the methods to offer, in the order configured, into `out` from `op` on. */
    method GetS5VerifyMethods(out: array<byte>, op: nat, len: nat) returns (ms: nat)
      requires cfg.Valid() && op + len <= out.Length
      modifies out
      ensures ms == if |Offerable(cfg.methods)| < len then |Offerable(cfg.methods)| else len
      ensures out[op..op + ms] == Offerable(cfg.methods)[..ms]
      ensures forall j :: 0 <= j < op ==> out[j] == old(out[j])
    {
      hide Offerable;
      var i := 0;
      ms := 0;
      OfferableNone();
      while i < 4 && ms < len
        invariant i <= 4 && ms <= len && out[op..op + ms] == Offerable(cfg.methods[..i])
        invariant forall j :: 0 <= j < op ==> out[j] == old(out[j])
      {
        var m := cfg.methods[i];
        assert cfg.methods[..i + 1] == cfg.methods[..i] + [m];
        OfferableSplit(cfg.methods[..i], [m]);
        OfferableOne(m);
        ghost var before := out[op..op + ms];
        if m != 0xFF {
          out[op + ms] := m;
          ms := ms + 1;
          assert out[op..op + ms] == before + [m];
        }
        i := i + 1;
      }
      assert cfg.methods == cfg.methods[..i] + cfg.methods[i..];
      OfferableSplit(cfg.methods[..i], cfg.methods[i..]);
      if i == 4 {
        assert cfg.methods[..4] == cfg.methods;
      }
    }

    /** The greeting `sendS5Greet` makes. */
    method MakeGreet() returns (msg: seq<byte>)
      requires cfg.Valid()
      ensures msg == GreetMessage()
    {
      hide Offerable;
      var greet := new byte[6](_ => 0);
      greet[0] := 5;
      var verifyMethods := GetS5VerifyMethods(greet, 2, 4);
      assert Offerable(cfg.methods)[..verifyMethods] == Offerable(cfg.methods);
      ghost var ms := greet[2..2 + verifyMethods];
      greet[1] := verifyMethods;
      msg := greet[..verifyMethods + 2];
      assert msg[2..] == ms;
    }

    /** `sendS5Greet`, then GREET. */
    method StartHandshake(offers: seq<array<byte>>)
      requires Shape() && Outbound() && Bounded() && Disclosed() && mS5State.INIT? && Offered(offers)
      modifies this`mS5State, this`mOutQueue, this`mSocks5, this`mBufferedSize, this`taken, this`asked, this`early,
               this`notified, this`mConnected, this`mAlive, this`mSocketOpen, sTemporary, cipher.mBuffer,
               cipher.mBuffer1
      ensures Outbound() && Bounded() && Disclosed() && mS5State.GREET? && TookFrom(offers)
      ensures Asked(old(asked), GreetMessage()) && mSocketOpen == old(mSocketOpen)
      ensures mConnected == old(mConnected)
    {
      hide Wire, Flat, PlainText, Socks5Proxy.Outbound, Socks5Proxy.BoundedIn;
      var greet := MakeGreet();
      SendRequest(greet, GREET);
      SwitchS5State(GREET, offers);
    }

    /** `sendQueue(mOutQueue)` */
    method FlushPayload()
      requires Outbound() && Bounded() && Disclosed() && mS5State.TRANS?
      modifies this`mOutQueue, this`mBufferedSize, this`wire, this`sends
      ensures Tried(mOutQueue, old(sends))
      ensures Outbound() && Bounded() && old(wire) <= wire
    {
      hide Wire, Flat;
      ghost var before := Flat(mOutQueue);
      var sent, bytes;
      mOutQueue, sent, bytes := SendQueue(mOutQueue);
      SentPrefix(wire, before, bytes, Flat(mOutQueue), Wire(taken));
      wire := wire + bytes;
    }

    /** `sendQueue(mSocks5)` */
    method FlushHandshake()
      requires Outbound() && Bounded()
      modifies this`mSocks5, this`mBufferedSize, this`askedWire, this`sends
      ensures Tried(mSocks5, old(sends))
      ensures Outbound() && Bounded()
    {
      hide Wire, Flat;
      ghost var before := Flat(mSocks5);
      var sent, bytes;
      mSocks5, sent, bytes := SendQueue(mSocks5);
      SentPrefix(askedWire, before, bytes, Flat(mSocks5), Wire(asked));
      askedWire := askedWire + bytes;
    }

    /** `onException` */
    method OnException(offers: seq<array<byte>>)
      requires Valid() && mSocketOpen && Offered(offers)
      modifies this, sTemporary, cipher.mBuffer, cipher.mBuffer1
      ensures happened == old(happened)
      ensures Valid() && mS5State.END? && notified == 1 && !mSocketOpen && !mConnected && !mAlive
      ensures stream == old(stream) && incoming == old(incoming) && delivered == old(delivered)
    {
      hide Wire, Flat, PlainText, Socks5Proxy.Outbound, Socks5Proxy.BoundedIn, Socks5Proxy.Disclosed;
      Finish(END, offers);
    }

    /** Of the octets `all` that the peer sent, the ciphertext of `theirs`, those read so far have been decrypted. */
    ghost predicate InStep(theirs: seq<Parcel>, all: seq<byte>)
      reads this`incoming, this`stream, this`mSocketOpen, mDecryptBuffer, mDecryptBuffer.mData
    {
      && mDecryptBuffer.Valid() && incoming <= theirs && (mSocketOpen ==> stream == all)
      && Onto(mDecryptBuffer.Contents(), theirs[|incoming|..])
      && IsWholeCount(theirs[|incoming|..], |mDecryptBuffer.Contents()|, 0)
    }

    /** What a step does to what the proxy sends and to its socket; what was read is in step already. */
    twostate predicate Did(h: Happening)
      reads *
    {
      match h
      case Read(r, _) => old(mSocketOpen) ==>
        && (r.Eof? ==> mS5State.END?) && (r.Error? && !r.retry ==> mS5State.FAILED?)
        && (r.Data? && mSocketOpen ==> mConnected) && (r.Error? && r.retry ==> unchanged(this))
      case Writable(offers) =>
        if !old(mSocketOpen) then unchanged(this)
        else
          && mConnected && (old(mS5State.INIT?) ==> mS5State.GREET?)
          && (old(mS5State.TRANS? && mOutQueue != []) ==> Tried(mOutQueue, old(sends)))
          && (old(mS5State.TRANS? && mOutQueue == [] && WouldTake(offers)) ==>
                Grew(old(taken), offers[0][..Taken(offers[0].Length)]))
      case Broken(_) => if old(mSocketOpen) then mS5State.END? && !mAlive else unchanged(this)
      case Sent(data) =>
        if data.Length == 0 || old(GetAvailableBufferSize()) < data.Length then taken == old(taken)
        else TookOne(old(taken), data[..Taken(data.Length)])
      case Closed => !mAlive && !mConnected && !mSocketOpen
    }

    /** One step of a run; the reactor brings nothing for a socket it does not have. */
    method Act(h: Happening, ghost theirs: seq<Parcel>, ghost all: seq<byte>)
      requires Valid() && AllValid(theirs) && h.Legal() && Harmless(h)
      requires InStep(theirs, all) && all + h.Octets() <= Wire(theirs)
      modifies this, mDecryptBuffer, mDecryptBuffer.mData, sTemporary, cipher.mBuffer, cipher.mBuffer1
      ensures Valid() && InStep(theirs, all + h.Octets()) && Did(h) && happened == old(happened)
    {
      hide Wire, PlainText, Flat, IsWholeCount, Onto, Heard, Socks5Proxy.Outbound, Socks5Proxy.BoundedIn;
      hide Socks5Proxy.Disclosed;
      assert all + [] == all;
      match h
      case Read(r, offers) =>
        if mSocketOpen {
          ReadOn(r, offers, theirs, all);
        }
      case Writable(offers) =>
        if mSocketOpen {
          OnWritable(offers);
        }
      case Broken(offers) =>
        if mSocketOpen {
          OnException(offers);
        }
      case Sent(data) =>
        var n := TakeData(data);
      case Closed =>
        CloseTunnel();
    }

    /** One step of a run, put on record. */
    method Step(h: Happening, ghost theirs: seq<Parcel>, ghost all: seq<byte>)
      requires Valid() && AllValid(theirs) && h.Legal() && Harmless(h)
      requires InStep(theirs, all) && all + h.Octets() <= Wire(theirs)
      modifies this, mDecryptBuffer, mDecryptBuffer.mData, sTemporary, cipher.mBuffer, cipher.mBuffer1
      ensures Valid() && InStep(theirs, all + h.Octets()) && happened == old(happened) + [h]
    {
      hide Wire, Socks5Proxy.Valid, Socks5Proxy.InStep, Socks5Proxy.Did;
      Act(h, theirs, all);
      Note(h, theirs, all + h.Octets());
    }

    ghost method Note(h: Happening, theirs: seq<Parcel>, all: seq<byte>)
      requires Valid() && InStep(theirs, all)
      modifies this`happened
      ensures Valid() && InStep(theirs, all) && happened == old(happened) + [h]
    {
      hide Socks5Proxy.Outbound, Socks5Proxy.BoundedIn, Socks5Proxy.Inbound, Socks5Proxy.Disclosed, Socks5Proxy.InStep;
      happened := happened + [h];
    }

    /** The client's `sendData`. */
    method TakeData(data: array<byte>) returns (r: nat)
      requires Valid() && data != sTemporary && cipher.Foreign(data)
      modifies this`mOutQueue, this`mBufferedSize, this`taken, this`early, sTemporary, cipher.mBuffer, cipher.mBuffer1
      ensures Valid() && r <= data.Length
      ensures r == if data.Length == 0 || old(GetAvailableBufferSize()) < data.Length then 0 else Taken(data.Length)
      ensures r == 0 ==> taken == old(taken)
      ensures r > 0 ==> TookOne(old(taken), data[..r])
    {
      hide Wire, Flat, PlainText, Socks5Proxy.Outbound, Socks5Proxy.BoundedIn, Socks5Proxy.Disclosed;
      r := SendData(data, 0, data.Length);
      assert data[0..r] == data[..r];
    }

    /** The client's `destroyTunnel`. */
    method CloseTunnel()
      requires Disclosed()
      modifies this`mConnected, this`mAlive, this`mSocketOpen
      ensures Disclosed() && !mAlive && !mConnected && !mSocketOpen
    {
      hide PlainText, Flat, Authorized;
      DestroyTunnel();
    }

    /** The client's buffers are its own. */
    ghost predicate Harmless(h: Happening) {
      match h
      case Sent(data) => Offered([data])
      case Closed => true
      case _ => Offered(h.offers)
    }

    method ReadOn(r: ReadResult, offers: seq<array<byte>>, ghost theirs: seq<Parcel>, ghost all: seq<byte>)
      requires Valid() && AllValid(theirs) && mSocketOpen && Offered(offers)
      requires r.Data? ==> 1 <= |r.bytes| <= SHARE_BUFFER_SIZE
      requires InStep(theirs, all) && all + (if r.Data? then r.bytes else []) <= Wire(theirs)
      modifies this, mDecryptBuffer, mDecryptBuffer.mData, sTemporary, cipher.mBuffer, cipher.mBuffer1
      ensures Valid() && InStep(theirs, all + if r.Data? then r.bytes else []) && happened == old(happened)
      ensures r.Error? && r.retry ==> unchanged(this)
      ensures r.Eof? ==> mS5State.END?
      ensures r.Error? && !r.retry ==> mS5State.FAILED?
      ensures r.Data? && mSocketOpen ==> mConnected
    {
      hide Wire, PlainText, Flat, IsWholeCount, Onto, Heard, Socks5Proxy.Outbound, Socks5Proxy.BoundedIn;
      hide Socks5Proxy.Disclosed;
      ghost var g := |incoming|;
      assert theirs[..g] == incoming;
      if r.Data? {
        ArriveOnto(theirs, g, all, mDecryptBuffer.Contents(), r.bytes);
      }
      ghost var k := OnReadable(r, offers, theirs[g..]);
      assert theirs[..g] + theirs[g..][..k] == theirs[..g + k] && theirs[g..][k..] == theirs[g + k..];
      assert all + [] == all;
    }

    /**
     * Any run of a proxy from its creation, read by read, however the peer's octets are cut: payload reaches the
     * client only after a complete handshake, it is a prefix of what the peer encrypted from there on, and the client
     * is told once at most that the tunnel is over.
     */
    method Run(script: seq<Happening>, ghost theirs: seq<Parcel>)
      requires Valid() && stream == [] && AllValid(theirs) && Received(script) <= Wire(theirs)
      requires forall h <- script :: h.Legal() && Harmless(h)
      modifies this, mDecryptBuffer, mDecryptBuffer.mData, sTemporary, cipher.mBuffer, cipher.mBuffer1
      ensures happened == old(happened) + script
      ensures Valid() && notified <= 1 && incoming <= theirs
      ensures delivered != [] || mS5State.TRANS? ==>
        Shaken() && parcelsAtEntry <= |theirs| && delivered <= PlainText(theirs[parcelsAtEntry..])
    {
      hide Wire, PlainText, Flat, IsWholeCount, Onto, Socks5Proxy.Valid, Socks5Proxy.InStep, Received;
      NothingRead(theirs);
      assert script[..0] == [] && Received([]) == [] by {
        ReceivedNone();
      }
      for i := 0 to |script|
        invariant Valid() && InStep(theirs, Received(script[..i])) && happened == old(happened) + script[..i]
      {
        ReceivedSoFar(script, i, theirs);
        Step(script[i], theirs, Received(script[..i]));
      }
      Disclosure(theirs, Received(script[..|script|]));
    }

    lemma NothingRead(theirs: seq<Parcel>)
      requires Valid() && stream == [] && AllValid(theirs)
      ensures InStep(theirs, [])
    {
      hide Wire, Flat, Parcel.Valid, Socks5Proxy.Outbound, Socks5Proxy.BoundedIn, Socks5Proxy.Disclosed;
      NothingAhead(theirs);
      if incoming != [] {
        NeverEmpty(incoming);
      }
    }

    /** What a run has disclosed. */
    lemma Disclosure(theirs: seq<Parcel>, all: seq<byte>)
      requires Valid() && InStep(theirs, all)
      ensures notified <= 1 && incoming <= theirs
      ensures delivered != [] || mS5State.TRANS? ==>
        Shaken() && parcelsAtEntry <= |theirs| && delivered <= PlainText(theirs[parcelsAtEntry..])
    {
      hide Wire, Flat, PlainText, Authorized, Socks5Proxy.Outbound, Socks5Proxy.BoundedIn;
      if delivered != [] || mS5State.TRANS? {
        HandshakeFirst();
        var n := parcelsAtEntry;
        assert theirs[n..] == incoming[n..] + theirs[|incoming|..];
        PlainTextSplit(incoming[n..], theirs[|incoming|..]);
      }
    }

    /** Version 5 and the configured methods, those that are not 0xFF. */
    function GreetMessage(): (msg: seq<byte>)
      requires cfg.Valid()
      ensures 2 <= |msg| <= 6 && msg[0] == 5 && msg[1] == |msg| - 2 && msg[2..] == Offerable(cfg.methods)
    {
      var ms := Offerable(cfg.methods);
      [5, |ms|] + ms
    }
  }

  function Offerable(methods: seq<byte>): (r: seq<byte>)
    ensures |r| <= |methods|
    ensures forall m :: m in r <==> m in methods && m != 0xFF
  {
    if methods == [] then []
    else (if methods[0] != 0xFF then [methods[0]] else []) + Offerable(methods[1..])
  }

  lemma OfferableNone()
    ensures Offerable([]) == []
  {
  }

  lemma OfferableOne(m: byte)
    ensures Offerable([m]) == if m != 0xFF then [m] else []
  {
    assert [m][1..] == [];
  }

  /** The methods offered keep the order and the repetitions configured. */
  lemma {:induction false} OfferableSplit(a: seq<byte>, b: seq<byte>)
    ensures Offerable(a + b) == Offerable(a) + Offerable(b)
  {
    if a == [] {
      assert a + b == b;
    } else {
      assert (a + b)[1..] == a[1..] + b;
      OfferableSplit(a[1..], b);
    }
  }

  lemma StuckBound(contents: seq<byte>, next: seq<Parcel>)
    requires AllValid(next) && Onto(contents, next) && IsWholeCount(next, |contents|, 0)
    ensures |contents| < 4114
  {
    if |contents| >= MAX_CIPHERTEXT {
      NothingTooLong(contents, next);
    }
  }

  lemma WindowOnto(contents: seq<byte>, size: nat, next: seq<Parcel>)
    requires size <= |contents| && Onto(contents, next)
    ensures Onto(contents[..size], next)
  {
  }

  /** What one `decrypt` call leaves of the buffered octets. */
  lemma WindowDecrypted(contents: seq<byte>, size: nat, next: seq<Parcel>, k: nat)
    requires AllValid(next) && Onto(contents, next)
    requires size == if |contents| > SHARE_BUFFER_SIZE then SHARE_BUFFER_SIZE else |contents|
    requires IsWholeCount(next, size, k)
    ensures var used := |Wire(next[..k])|;
      && used <= |contents|
      && contents == Wire(next[..k]) + contents[used..]
      && Onto(contents[used..], next[k..])
    ensures k > 0 ==> |PlainText(next[..k])| > 0 && |Wire(next[..k])| > 0
    ensures k == 0 ==> |PlainText(next[..k])| == 0 && |Wire(next[..k])| == 0 && IsWholeCount(next, |contents|, 0)
  {
    hide Parcel.Ciphertext, Parcel.Valid;
    var done, rest := next[..k], next[k..];
    assert next == done + rest;
    WireSplit(done, rest);
    if k > 0 {
      NeverEmpty(done);
    } else if |contents| > SHARE_BUFFER_SIZE {
      NothingTooLong(contents, next);
    }
  }

  /** More octets than one parcel can have hold a whole parcel. */
  lemma NothingTooLong(contents: seq<byte>, next: seq<Parcel>)
    requires AllValid(next) && Onto(contents, next) && |contents| >= MAX_CIPHERTEXT
    ensures next != [] && |Wire(next[..1])| <= MAX_CIPHERTEXT
  {
    if next != [] {
      CiphertextBounds(next[0]);
      WireCons(next[0], []);
      assert next[..1] == [next[0]] + [];
    }
  }

  /** Parcels have plaintext and ciphertext. */
  lemma NeverEmpty(ps: seq<Parcel>)
    requires ps != [] && AllValid(ps)
    ensures PlainText(ps) != [] && Wire(ps) != []
  {
    hide Parcel.Ciphertext;
    CiphertextBounds(ps[0]);
    WireCons(ps[0], ps[1..]);
    assert ps == [ps[0]] + ps[1..];
  }

  /** Before anything is read. */
  lemma NothingAhead(theirs: seq<Parcel>)
    requires AllValid(theirs)
    ensures Wire([]) == [] && Onto([], theirs) && IsWholeCount(theirs, 0, 0)
  {
    hide Parcel.Ciphertext;
    if theirs != [] {
      NeverEmpty(theirs[..1]);
    }
  }

  lemma DecryptedMore(incoming: seq<Parcel>, next: seq<Parcel>, k: nat, j: nat, stream: seq<byte>, left: seq<byte>)
    requires AllValid(incoming) && AllValid(next) && k <= |next| && j <= |next[k..]|
    requires stream == Wire(incoming) + (Wire(next[k..][..j]) + left)
    ensures AllValid(incoming + next[k..][..j]) && stream == Wire(incoming + next[k..][..j]) + left
    ensures next[..k + j] == next[..k] + next[k..][..j] && next[k + j..] == next[k..][j..]
  {
    WireSplit(incoming, next[k..][..j]);
  }

  lemma FlatNone()
    ensures Flat([]) == []
  {
  }

  lemma DeliverBatch(incoming: seq<Parcel>, k: nat, batch: seq<Parcel>)
    requires k <= |incoming|
    ensures PlainText((incoming + batch)[k..]) == PlainText(incoming[k..]) + PlainText(batch)
  {
    assert (incoming + batch)[k..] == incoming[k..] + batch;
    PlainTextSplit(incoming[k..], batch);
  }

  lemma ReceivedSoFar(script: seq<Happening>, i: nat, theirs: seq<Parcel>)
    requires i < |script| && Received(script) <= Wire(theirs)
    ensures Received(script[..i + 1]) == Received(script[..i]) + script[i].Octets()
    ensures Received(script[..i + 1]) <= Wire(theirs)
  {
    hide Wire, Received;
    ReceivedPrefix(script, i + 1);
    assert script[..i + 1][..i] == script[..i];
    ReceivedNext(script[..i + 1]);
  }

  lemma ReceivedNone()
    ensures Received([]) == []
  {
  }

  lemma ReceivedNext(script: seq<Happening>)
    requires script != []
    ensures Received(script) == Received(script[..|script| - 1]) + script[|script| - 1].Octets()
  {
  }

  /** The octets that arrive next go on with the ciphertext of the parcels not yet decrypted. */
  lemma ArriveOnto(made: seq<Parcel>, g: nat, w: seq<byte>, left: seq<byte>, bytes: seq<byte>)
    requires g <= |made| && w == Wire(made[..g]) + left && w + bytes <= Wire(made)
    ensures Onto(left + bytes, made[g..])
  {
    WireSplit(made[..g], made[g..]);
    assert made == made[..g] + made[g..];
    CutPrefix(Wire(made[..g]), left, bytes, Wire(made[g..]));
  }

  lemma CutPrefix(done: seq<byte>, left: seq<byte>, bytes: seq<byte>, rest: seq<byte>)
    requires (done + left) + bytes <= done + rest
    ensures left + bytes <= rest
  {
    var a, b := (done + left) + bytes, done + rest;
    forall i | 0 <= i < |left + bytes| ensures (left + bytes)[i] == rest[i] {
      assert a[|done| + i] == b[|done| + i];
    }
  }
}
