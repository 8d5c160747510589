# A verified model of the user-space TCP/IP relay

The relay reads IP packets from a tun device, ends their TCP connections in user space, and carries the payload over
ordinary sockets, either straight to the destination or through a SOCKS5 proxy whose traffic is ciphered and framed.
This project models its stateful core and proves what the parts owe each other:

* **Codec** (`Bytes`, `ShiftCoder`, `PaddingCoder`, `Framing`, `Cipher`): `encrypt` and `decrypt` with the two swapped
  buffers, the rotating shift, the random padding and the 1024-octet framing.
* **Proxy stream** (`Buffers`, `Socks5`, `Link`): send queues, partial sends, the decrypt buffer with its overlapping
  copy, the handshake, and the end-to-end stream over two proxies under any chunking.
* **Packets** (`Checksum`, `Packet`): the Internet checksum and the packet builder, checked as a receiver does.
* **TCP sessions** (`Router`, `TcpSession`, `Relay`): the state machine, the retransmit queue, the sorted forward queue,
  flow control, the datagrams shared with the Router's write queue, and every interleaving of their steps up to teardown.
* **Reactor** (`Reactor`): re-entrant registration changes from callbacks, deferred freeing, reuse of descriptors.

`dafny verify dfyconfig.toml` checks everything.

## How to read it

Objects the source updates in place are classes with the source's fields. Ghost fields only record history: what was
taken, pushed, handed over or delivered, and what a device or the kernel answered. Results of `rand`, `read`, `write`,
`send` and `epoll_ctl` are arbitrary within their legal range. `delete` is a ghost flag whose setter requires that it
is not set, so freeing twice does not verify.

A session's peer and tunnel are not assumed to behave. Two ghost flags note whether they did, and the statements that
need it carry the flag: `mPeerOk` is true while every acknowledgement that moved the left edge landed on a boundary,
where a queued datagram that occupies sequence numbers starts or the last one queued ends, and no data came from the
tunnel after it was disconnected; `mDirect` is true while tunnel data came in reads of at most 61440 octets, each while
the tunnel was being read. The record of the back path (`TcpSessions.History`) goes on after a reset; its `mClean` is
true until a reset is sent or payload follows the FIN. `mFresh` is true until a FIN or payload ahead of the next
expected number arrives, `mOrdered` until payload is queued when it is not.

Places where the code does not do what a caller might expect, kept as they are and stated exactly:

* `encrypt` checks an estimate that forgets the two padding-length octets and `pack` checks its own; between the two
  the caller's pointer moves past octets that are not written (`Ciphers.Cipher.Encrypt`). The buffers used in the
  program are never that tight (`Socks5.Socks5Proxy.EncryptAndQueue`).
* The data offset of a SYN packet covers 28 of its 30 octets of header and options, so its payload length reads back
  wrong, and only a SYN's does (`Packets.AccessorsReadBack`).
* `TCP_RELATIVE_SEQ` is one short of the distance unless the number is above the base (`TcpSessions.RelativeSeqExact`).
* An acknowledgement inside a datagram drops all of it, and whatever is next in the queue then has a gap before it, which
  resets the connection: a datagram that remains, the acknowledgement of a payload or of a FIN, the FIN, or octets of the
  tunnel that come later. `TcpSessions.TCPSession.Survives` is the condition, on the state before and the event, under
  which a clean connection stays clean, and `TcpSessions.TCPSession.Handle` proves that it does if and only if that holds
  (a writable tunnel is lost only on an error). `TcpSessions.PartialAckResets` is an input that resets at once,
  `TcpSessions.PartialAckWaits` with `TcpSessions.DataResetsLater` one that resets with the next tunnel data.
* After such a reset a handler may go on to another state. The acknowledgement of a FIN does in ESTABLISHED, FIN_WAIT1 and
  FIN_WAIT2 when the left edge, not above the local number, is no boundary (`TcpSessions.TCPSession.OnReceiveFIN`, an
  input is `TcpSessions.FinLeavesClosed`), and the flush that pushes the FIN does when nothing is queued but not
  everything pushed was acknowledged (`TcpSessions.TCPSession.Finish`, `TcpSessions.EndLeavesClosed`). What survives is
  that from one handler to the next the state moves forwards only, and that a session once dead is never alive again
  (`TcpSessions.TCPSession.Run`, both for every peer).
* When the tun device takes no more, its write event is removed although datagrams are queued, and they wait for the next
  packet to be handed over (`Routers.Router.OnWritable`, `Routers.Router.OnSyncEvent`). In the same way a tunnel that takes
  nothing of the forward queue is not written to until more payload is accepted
  (`TcpSessions.TCPSession.OnTunnelWritable`, `TcpSessions.TCPSession.InsertPending`).
* A handler that closes a descriptor without removing it and adds the number again with another handler gets 1 from
  `addEvent`, and the rest of the batch for the old descriptor goes to the new handler
  (`Reactors.EpollReactor.Reused`). Without such a call every callback goes to the handler the batch began with
  (`Reactors.EpollReactor.DispatchEvent`).

## Model

| member | source | states |
|---|---|---|
| Links.Link.Run | netcore/src/jni/core/proxy/Socks5Proxy.cpp:177-291 | for any run of offers, partial sends and arrivals cut into reads of at most 8192 octets, between two ends that share a cipher and a static buffer or have their own, the far client has a prefix of what the sender reported as taken, and all of it once every ciphertext octet has arrived |
| Links.EndToEnd | netcore/src/jni/core/proxy/Socks5Proxy.cpp:42-291 | the delivery of a link from the creation of two proxies in processes of their own, whose handshakes bring both to where a link begins |
| Links.Meet | netcore/src/jni/core/proxy/Socks5Proxy.cpp:42-331 | the delivery of a link between two proxies that come out of any runs of their own past the handshake and idle; both handshakes were complete |
| Links.Link.Delivered | netcore/src/jni/core/proxy/Socks5Proxy.cpp:235-291 | the prefix at any moment of a run of a link, not only at its end, and all of it whenever the whole ciphertext has arrived |
| Links.Delivery | netcore/src/jni/core/cipher/Cipher.cpp:78-158 | the parcels decrypted so far hold a prefix of the plaintext made, and all of it when the whole ciphertext is there |
| Links.Link.OnTheWire | netcore/src/jni/core/proxy/Socks5Proxy.cpp:360-398 | what arrived is exactly the ciphertext of the parcels already decrypted followed by what is left in the decrypt buffer |
| TcpSessions.TCPSession.Run | netcore/src/jni/core/TCPSession.cpp:95-171 | any run of packets and tunnel events keeps the whole session invariant; for every peer the state only moves forwards in the diagram of section 3.2 of RFC 793, CLOSED is never left, a session once dead is never alive again, and but for an RST no packet of 64 KiB goes to the Router; with a well-behaved peer what was pushed is exactly what the tunnel delivered; when the packets of the peer carry slices of an application stream, the tunnel takes a prefix of that stream as long as no payload was queued out of order |
| TcpSessions.TCPSession.Handle | netcore/src/jni/core/TCPSession.cpp:95-171 | what each event does to both streams: tunnel data extends the one by itself, or not at all exactly when more was acknowledged than sent; only a packet extends what was accepted, and while the order holds by its payload at the expected number only; only a writable tunnel takes octets; but for an RST nothing is handed over that the peer's window does not admit; whether the tunnel is read and written to afterwards; for every event and before the first reset, when the event makes the connection unclean, exactly, and that this is the disorder branch taken and the session dead, but for payload after the FIN and a tunnel lost in another state than ESTABLISHED and CLOSE_WAIT |
| TcpSessions.TCPSession.BackPromises | netcore/src/jni/core/TCPSession.cpp:346-424 | in every state of a run: received = sent back + queued, the size counter is the sum of capacities, every packet ever handed over passes the checks of a receiver and has its own number, the number expected of the peer when it was built and its flags in the header, and every one queued before the first reset, also when sent again after it, carries exactly octets q-1 up to q-1+n of the stream; with a well-behaved peer these are the octets the tunnel delivered, the disorder branch was never entered and only a disconnected tunnel has reset; one FIN at most and only after everything was acknowledged; direct-tunnel data below 2^18+61480 |
| TcpSessions.TCPSession.ForwardPromises | netcore/src/jni/core/TCPSession.cpp:300-344 | in every state of a run the forward queue is strictly sorted and counted; until a FIN or a gap, octets taken followed by the flattened queue are the stream accepted, of length mRemoteNext-1 |
| Relays.Lifetime | netcore/src/jni/core/Router.cpp:29-40 | a relay that lives through any script of interleaved session and Router steps, every step of which was made, has after teardown freed every datagram it ever built; freeing twice is not possible |
| Relays.Relay.Holder | netcore/src/jni/core/TCPSession.cpp:426-433 | between any two steps a datagram not freed is in one session's back queue only, or waits in the Router's queue to be freed; it is marked buffering exactly when it is in that queue |
| Relays.Relay.OnTheTun | netcore/src/jni/core/Router.cpp:71-179 | between any two steps, whatever the interleaving: the datagrams of a session among those that left the Router and those still queued are exactly those it handed over, in that order; each that left was written whole or, aborted, cut short; each passes the checks of a receiver and, with a well-behaved peer, carries the octets its tunnel delivered at its place |
| Reactors.EpollReactor.DispatchEvent | netcore/src/jni/reactor/EpollReactor.cpp:268-298 | whatever the callbacks add and remove, every stub the batch points to stays allocated to the end of the batch; the callbacks are those of its events one after the other, for each event reading before writing and both before the exception, each at most once and only for what happened, and all of them when the stub is still registered at the end; every callback for a stub goes to the handler it had when the batch began unless addEvent on the stub, still registered, gave it another |
| Reactors.EpollReactor.Callback | netcore/src/jni/reactor/EpollReactor.cpp:280-294 | a callback is only ever made for the stub its descriptor is registered with at that moment, to the handler given to that stub last |
| Reactors.EpollReactor.Loyalty | netcore/src/jni/reactor/EpollReactor.cpp:268-298 | between any two moments, callbacks for a stub registered at the first go to the handler it had then, unless addEvent gave the stub another in between; a stub no longer registered is given none |
| Reactors.EpollReactor.Reused | netcore/src/jni/reactor/EpollReactor.cpp:76-90 | a descriptor closed without delEvent and added again keeps its stub, so addEvent fails and yet what is left of the batch goes to the new handler |
| Packets.PacketAccepted | netcore/src/jni/core/TCPSession.cpp:565-642 | every packet built, SYN or odd length included, passes the header sum of RFC 791 and the pseudo-header sum of RFC 793 taken in network byte order |
| ShiftCoder.UnshiftedShifted | netcore/src/jni/core/cipher/ShiftCoder.cpp:8-60 | decoding with the shift-or expression of the source undoes encoding with its own, for every octet, every first shift and every length |
| ShiftCoder.ShiftOutRotates | netcore/src/jni/core/cipher/ShiftCoder.cpp:20-34 | the shift-or expression of encode rotates an octet to the left by as many bits |
| ShiftCoder.ShiftedOctets | netcore/src/jni/core/cipher/ShiftCoder.cpp:20-34 | octet i is rotated by the first shift plus i, modulo 8 |
| ShiftCoder.Encode | netcore/src/jni/core/cipher/ShiftCoder.cpp:8-36 | writes the shifted octets for the shift drawn, or nothing when the buffer is not larger than the input |
| ShiftCoder.Decode | netcore/src/jni/core/cipher/ShiftCoder.cpp:39-60 | writes the unshifted octets; refuses a shift above 7 |
| PaddingCoder.UnpaddedPadded | netcore/src/jni/core/cipher/PaddingCoder.cpp:10-47 | removing a padding of any content below 65536 octets gives back the data |
| PaddingCoder.Encode | netcore/src/jni/core/cipher/PaddingCoder.cpp:10-34 | writes a length, that many padding octets within the range left, and the data; refuses when fewer than four octets of room would be left |
| PaddingCoder.Decode | netcore/src/jni/core/cipher/PaddingCoder.cpp:37-47 | copies what follows the padding; gives 0 when the padding claims more than there is |
| Framing.PackLength | netcore/src/jni/core/cipher/Cipher.cpp:199-238 | a pack is two octets longer than its data for each started section, one more empty section when the length is a multiple of 1024 |
| Framing.ShortPack | netcore/src/jni/core/cipher/Cipher.cpp:204-238 | a pack of fewer than 1024 octets is their number, the high octet first, and the octets |
| Framing.LongPack | netcore/src/jni/core/cipher/Cipher.cpp:204-238 | any other pack starts with 4, 0 and 1024 octets, and goes on with the pack of the rest |
| Framing.UnpackPack | netcore/src/jni/core/cipher/Cipher.cpp:204-286 | unpacking a pack followed by anything gives the data and consumes exactly the pack, multiples of 1024 included |
| Framing.UnpackStrictPrefix | netcore/src/jni/core/cipher/Cipher.cpp:240-286 | unpacking any strict prefix of a pack finds no whole package |
| Framing.PackFitsEstimate | netcore/src/jni/core/cipher/Cipher.cpp:199-202 | a pack is exactly two octets below the framing estimate |
| Framing.PackInto | netcore/src/jni/core/cipher/Cipher.cpp:204-238 | the in-place loop writes exactly the pack, or nothing when the estimate exceeds the room |
| Framing.UnpackFrom | netcore/src/jni/core/cipher/Cipher.cpp:240-286 | the in-place loop copies what the package holds and moves the pointer past it, or leaves the pointer where it was |
| Ciphers.PeelInner | netcore/src/jni/core/cipher/Cipher.cpp:22-76 | removing the layers in the order the id octets say gives back the plaintext for every shift and padding |
| Ciphers.InnerOctets | netcore/src/jni/core/cipher/Cipher.cpp:22-76 | the octets of a parcel before framing: 1, the length and octets of the padding, 2, the first shift, 0 and the plaintext, rotated |
| Ciphers.CiphertextBounds | netcore/src/jni/core/cipher/Cipher.cpp:182-202 | a parcel is at least 8 octets longer than its plaintext, at most 4114 octets, and at most two octets longer than the estimate, which forgets the padding length |
| Ciphers.UnpackWindow | netcore/src/jni/core/cipher/Cipher.cpp:240-286 | a window onto a run of parcels unpacks to the first one exactly when it holds all of it |
| Ciphers.DecryptsExactly | netcore/src/jni/core/cipher/Cipher.cpp:78-158 | the ciphertext of any list of parcels followed by a strict prefix of one more gives all their plaintext and stops at the end of the last whole one |
| Ciphers.Cipher.Encrypt | netcore/src/jni/core/cipher/Cipher.cpp:22-76 | takes min(len, 4096) octets and writes the parcel of exactly those, through both swapped buffers; says when it refuses, that between its two guards it moves the pointer yet writes nothing, and the room from which on that cannot happen |
| Ciphers.WorstCase | netcore/src/jni/core/cipher/PaddingCoder.cpp:10-34 | no parcel asks for more room than the worst padding does, and for every plaintext some padding that may be drawn asks for that much |
| Ciphers.Cipher.EncodeLayers | netcore/src/jni/core/cipher/Cipher.cpp:36-70 | the two buffers swapped once per coder end with the plaintext under both layers |
| Ciphers.Cipher.Decrypt | netcore/src/jni/core/cipher/Cipher.cpp:78-158 | on any window onto a run of parcels: exactly the whole parcels, their plaintext, the pointer at their end; nothing when the room is smaller than the input; the not-enough-space branch is dead |
| Ciphers.Cipher.StripLayers | netcore/src/jni/core/cipher/Cipher.cpp:100-137 | the swapped buffers end with the octets under every layer |
| Buffers.Segment.Write | netcore/src/jni/core/BufferQueue.cpp:49-57 | appends what fits and says how much |
| Buffers.Segment.Consume | netcore/src/jni/core/BufferQueue.cpp:25-31 | drops from the front, or nothing when asked for more than there is |
| Buffers.Segment.Flip | netcore/src/jni/core/BufferQueue.cpp:59-65 | the forward copy over itself keeps the contents and gives back the room before them |
| Buffers.FlatConsumeFront | netcore/src/jni/core/proxy/Socks5Proxy.cpp:364-383 | consuming part of the front segment drops exactly those octets from the queue as a whole |
| Socks5.Socks5Proxy.HandshakeFirst | netcore/src/jni/core/proxy/Socks5Proxy.cpp:514-630 | in every valid state payload reached the client only after an allowed method reply, the account reply when that method was chosen, and a successful connect reply; the end is notified at most once |
| Socks5.Socks5Proxy.Run | netcore/src/jni/core/proxy/Socks5Proxy.cpp:212-331 | any run from the creation of a proxy, of reads cut anywhere, ends of file, errors, writable sockets, exceptions, offers and closing, each handled in its turn: payload reaches the client only after a complete handshake, it is a prefix of what the peer encrypted from there on, and the end is notified at most once |
| Socks5.Socks5Proxy.Establish | netcore/src/jni/core/proxy/Socks5Proxy.cpp:42-89 | a proxy is alive and its socket in the reactor exactly when every system call succeeded |
| Links.Hears | netcore/src/jni/core/proxy/Socks5Proxy.cpp:212-291 | a parcel read whole is one message and leads exactly where the state machine says |
| Socks5.Socks5Proxy.SendData | netcore/src/jni/core/proxy/Socks5Proxy.cpp:177-210 | takes up to one parcel when it fits the send window, else nothing; sent, queued and counted octets stay in step; what is queued for the client stays at most 2^18+1030, and so does the total, except that after payload offered before the handshake was through the requests, 1031 octets at most for each, may come on top |
| Socks5.Socks5Proxy.EncryptAndQueue | netcore/src/jni/core/proxy/Socks5Proxy.cpp:190-210 | with the shared 8192-octet buffer encryption never fails: min(len, 4096) octets are taken and their parcel queued |
| Socks5.Socks5Proxy.SendQueue | netcore/src/jni/core/proxy/Socks5Proxy.cpp:360-398 | the octets the socket took and those still queued are the queue as it was; something is left only when the socket refused the last send |
| Socks5.Socks5Proxy.Receive | netcore/src/jni/core/proxy/Socks5Proxy.cpp:228-245 | after a flip any read of at most 8192 octets fits behind fewer than 4114 left: the overflow branch is dead |
| Socks5.Socks5Proxy.DecryptBuffered | netcore/src/jni/core/proxy/Socks5Proxy.cpp:246-260 | one decrypt call on at most 8192 buffered octets takes whole parcels, or finds that there is none |
| Socks5.Socks5Proxy.DrainDecryptBuffer | netcore/src/jni/core/proxy/Socks5Proxy.cpp:246-291 | the parse loop ends with no whole parcel left, every one before handled in order; the messages made of them and where they led are the state machine run on them |
| Socks5.Socks5Proxy.OnReadable | netcore/src/jni/core/proxy/Socks5Proxy.cpp:212-291 | keeps the proxy invariant for every read result: fewer than 4114 octets remain and the parcels so far are those of the stream; an interrupted read changes nothing, the end of file leads to END and an error to FAILED |
| Socks5.Socks5Proxy.OnWritable | netcore/src/jni/core/proxy/Socks5Proxy.cpp:293-323 | keeps the proxy invariant; in INIT queues the method offer and moves to GREET; in TRANS sends what is queued until the socket refuses, or with nothing queued takes what the client offers; during the handshake sends its requests; other states stay |
| Socks5.Socks5Proxy.OnException | netcore/src/jni/core/proxy/Socks5Proxy.cpp:325-331 | ends the tunnel and notifies the client, once |
| Socks5.Socks5Proxy.SwitchS5State | netcore/src/jni/core/proxy/Socks5Proxy.cpp:338-358 | END and FAILED notify the client once per entry and close the socket |
| Socks5.Socks5Proxy.HandleS5GreetBack | netcore/src/jni/core/proxy/Socks5Proxy.cpp:514-547 | the next state and the request queued for every reply, the account message or the connect request: on only for two octets with a configured method |
| Socks5.Socks5Proxy.HandleS5VerifyBack | netcore/src/jni/core/proxy/Socks5Proxy.cpp:549-574 | the connect request for the reply 05 00, failure for every other |
| Socks5.Socks5Proxy.HandleS5ConnBack | netcore/src/jni/core/proxy/Socks5Proxy.cpp:576-630 | TRANS for a successful reply of at least four octets, failure for every other |
| Socks5.HandshakeTable | netcore/src/jni/core/proxy/Socks5Proxy.cpp:514-630 | the replies octet by octet: 5, m for a configured method m, 5, 0 for an account, 5, 0 and two more for a connection; everything else fails |
| Socks5.Socks5Proxy.ContainS5Verify | netcore/src/jni/core/proxy/Socks5Proxy.cpp:400-411 | whether a method is one of the four configured |
| Socks5.Offerable | netcore/src/jni/core/proxy/Socks5Proxy.cpp:413-429 | the methods offered are those configured that are not 0xFF |
| Socks5.OfferableSplit | netcore/src/jni/core/proxy/Socks5Proxy.cpp:413-429 | in the order configured and as often |
| Socks5.Socks5Proxy.GetS5VerifyMethods | netcore/src/jni/core/proxy/Socks5Proxy.cpp:413-429 | the loop writes exactly those, as many as there is room for |
| Socks5.StuckBound | netcore/src/jni/core/proxy/Socks5Proxy.cpp:235-260 | octets without a whole parcel are fewer than 4114 |
| Links.Link.Arrive | netcore/src/jni/core/proxy/Socks5Proxy.cpp:212-291 | an arrival of any size up to a read keeps the two ends in step |
| Links.Link.Offer | netcore/src/jni/core/proxy/Socks5Proxy.cpp:177-188 | what an offer reports as taken is what the plaintext on the link grows by |
| Checksum.ComputeChecksum | netcore/src/jni/core/IPAdpt.cpp:109-128 | the loop over words computes the folded little-endian sum, in an accumulator that does not exceed 32 bits |
| Checksum.FoldResidue | netcore/src/jni/core/IPAdpt.cpp:121-127 | folding keeps the value modulo 65535 and is zero for zero only |
| Checksum.Chained | netcore/src/jni/core/IPAdpt.cpp:109-128 | summing on from a part of even length equals one sum over both parts |
| Checksum.NoOverflow | netcore/src/jni/core/IPAdpt.cpp:109-119 | up to 131072 octets the accumulator stays below 2^32 |
| Checksum.SumsSwapped | netcore/src/jni/core/IPAdpt.cpp:109-119 | the sums of little-endian and of network-order words agree up to a factor 256 modulo 65535 (section 2 of RFC 1071) |
| Checksum.AcceptedIfMultiple | netcore/src/jni/core/IPAdpt.cpp:109-128 | a receiver summing in network order accepts when the little-endian sum is a positive multiple of 65535 |
| Checksum.FoldLoop | netcore/src/jni/core/IPAdpt.cpp:121-127 | the carry loop ends in the fold |
| Packets.TcpChecksumIsOneSum | netcore/src/jni/core/TCPSession.cpp:593-634 | the chain over pseudo header, header, options and payload is one sum over their concatenation |
| Packets.AccessorsReadBack | netcore/src/jni/core/IPAdpt.cpp:33-81 | ports, sequence and acknowledgement number read back from every packet; payload offset and length exactly from those without SYN, whose data offset covers 28 of 30 octets |
| Packets.HeaderOctets | netcore/src/jni/core/TCPSession.cpp:565-642 | every octet of both headers but the sums: lengths, addresses, ports, both numbers modulo 2^32 with the high octet first, data offset, flags, window and the ten option octets of a SYN; then the payload |
| Packets.BuildPackage | netcore/src/jni/core/TCPSession.cpp:565-642 | the buffer ends holding the packet for the endpoints, fields and payload given |
| Packets.PutIpHeader | netcore/src/jni/core/TCPSession.cpp:581-590 | the IP header with the complement of its own sum, the rest untouched |
| Packets.PutTcpHeader | netcore/src/jni/core/TCPSession.cpp:606-634 | header, options and payload with the complement of the four-part sum |
| Routers.Router.OnSyncEvent | netcore/src/jni/core/Router.cpp:71-98 | queues a datagram exactly when it is not in the queue already, marking it and asking for the write event; every other result leaves the queue and the event as they were |
| Routers.Router.OnWritable | netcore/src/jni/core/Router.cpp:127-179 | takes a prefix off the queue: one frame for each datagram taken, in order, written whole unless it was aborted, and only the front is ever partly written; what left and what is queued is together what was queued before; something is left only when the last write took nothing; a datagram is freed exactly when it left the queue with the release flag; the write event is gone afterwards |
| Routers.Router.WriteFront | netcore/src/jni/core/Router.cpp:133-176 | the front is dropped when aborted; otherwise it leaves when the device took all of it, waits when it took some, and the writing stops when it took nothing; the octets on the device grow by what it took |
| Routers.Router.TunTook | netcore/src/jni/core/Router.cpp:127-179 | the octets the tun device took are those of the frames in the order queued, whole or cut short by an abort, and the first of the front; with nothing aborted, a prefix of all packets ever queued one after the other |
| Routers.Router.WriteRest | netcore/src/jni/core/Router.cpp:156-176 | a datagram written to its end leaves the queue as a whole frame and reads whole again, however it was cut, or is freed |
| Routers.Router.PopAborted | netcore/src/jni/core/Router.cpp:133-143 | an aborted datagram leaves the queue as a frame of the octets written so far, without another |
| Routers.Router.ReleaseData | netcore/src/jni/core/Router.cpp:249-251 | deletes everything still queued, each once |
| TcpSessions.LeadsForward | netcore/src/jni/core/TCPSession.cpp:435-447 | the order of states is transitive and never returns to an earlier state |
| TcpSessions.LeadsExactly | netcore/src/jni/core/TCPSession.cpp:435-447 | one state leads to another exactly when a walk along the arrows of the diagram in section 3.2 of RFC 793, or an abort, does |
| TcpSessions.Transitions | netcore/src/jni/core/TCPSession.cpp:129-262 | where the code goes: ESTABLISHED to FIN_WAIT1 and CLOSE_WAIT to LAST_ACK on the FIN pushed; to CLOSE_WAIT, TIME_WAIT or CLOSING, and TIME_WAIT on the FIN of the peer; to ESTABLISHED, FIN_WAIT2, CLOSED and TIME_WAIT on an acknowledgement |
| TcpSessions.ScaledIs | netcore/src/jni/core/TCPSession.cpp:125-125 | the send window is the window of the header times 2 to the power of the scale, modulo 2^32 |
| TcpSessions.RelativeSeqExact | netcore/src/jni/core/TCPSession.cpp:9 | the macro is the distance modulo 2^32 exactly when the number is above the base |
| TcpSessions.TCPSession.GapExactly | netcore/src/jni/core/TCPSession.cpp:350-368 | once what can be dropped is dropped, there is a gap before the front exactly when the queue is out of order |
| TcpSessions.BoundaryAtFront | netcore/src/jni/core/TCPSession.cpp:350-368 | with nothing queued before the left edge, what is queued starts at it exactly when it is a boundary of the chain |
| TcpSessions.BoundaryAfterPop | netcore/src/jni/core/TCPSession.cpp:351-353 | dropping a datagram that starts before the left edge, or a pure acknowledgement, neither makes nor breaks a boundary |
| TcpSessions.NoBoundaryInside | netcore/src/jni/core/TCPSession.cpp:551-558 | inside the datagram queued last there is no boundary |
| TcpSessions.PartialAckResets | netcore/src/jni/core/TCPSession.cpp:346-424 | a new connection with one data segment queued, acknowledged in part by a FIN, is reset |
| TcpSessions.PartialAckWaits | netcore/src/jni/core/TCPSession.cpp:346-424 | the same acknowledgement in a plain packet drops the segment and resets nothing: the connection is clean, with its left edge at no boundary |
| TcpSessions.DataResetsLater | netcore/src/jni/core/TCPSession.cpp:394-398 | after that any octets the tunnel delivers reset the connection |
| TcpSessions.FinLeavesClosed | netcore/src/jni/core/TCPSession.cpp:240-245 | after that a FIN of the peer resets the connection, whose state is CLOSE_WAIT in the end |
| TcpSessions.EndLeavesClosed | netcore/src/jni/core/TCPSession.cpp:370-379 | after that the end of the tunnel makes it push the FIN, which resets the connection, whose state is LAST_ACK in the end |
| TcpSessions.GaplessPush | netcore/src/jni/core/TCPSession.cpp:551-558 | a datagram pushed after the SYN and before the FIN keeps the chain gap-free and every datagram on its octets of the stream |
| TcpSessions.ForwardInsert | netcore/src/jni/core/BufferQueue.h:94-107 | inserting adds the payload to the count, and at the end appends it to the flattened queue |
| TcpSessions.SortedInsert | netcore/src/jni/core/BufferQueue.h:94-107 | inserting before the first not smaller keeps strict order unless the number is queued |
| TcpSessions.FindNotSmaller | netcore/src/jni/core/BufferQueue.h:94-103 | the position before which every number is smaller and after which none is |
| TcpSessions.MakeDatagram | netcore/src/jni/core/TCPSession.cpp:565-642 | a new whole datagram with the number and payload given, in a packet every receiver accepts, whose header has its number, its acknowledgement and its flags |
| TcpSessions.TCPSession.BuildPackage | netcore/src/jni/core/TCPSession.cpp:565-642 | a new datagram at the current number with the current fields and the window there is room for |
| TcpSessions.TCPSession.WindowField | netcore/src/jni/core/TCPSession.cpp:449-470 | the window of a packet, in units of the scale, is the largest that promises no more than the tunnel has room for over what waits in the forward queue, nor more than the field can say |
| TcpSessions.TCPSession.SafeReleaseSegment | netcore/src/jni/core/TCPSession.cpp:426-433 | the datagram is freed, or, when it waits in the Router's queue, left there aborted and flagged to be freed |
| TcpSessions.TCPSession.PopAcked | netcore/src/jni/core/TCPSession.cpp:350-368 | drops datagrams before the left edge, and pure acknowledgements already sent, until the front is neither; what is left is in order exactly when the left edge was a boundary |
| TcpSessions.TCPSession.SendBackSegment | netcore/src/jni/core/TCPSession.cpp:481-511 | counts the try, and succeeds exactly when the datagram is not in the Router's queue |
| TcpSessions.TCPSession.SendFront | netcore/src/jni/core/TCPSession.cpp:382-413 | what goes to the Router is exactly the front, and only if there is no gap before it, the window admits it and the Router does not have it already; a gap is reported exactly when the front starts after the left edge |
| TcpSessions.TCPSession.SendWindow | netcore/src/jni/core/TCPSession.cpp:381-424 | a gap before the front resets with an RST at the left edge and is counted; no gap never does, and then exactly a front the window admits is handed over, and the tunnel is read afterwards exactly if it was or if the connection is established, the tunnel open and less than 2^17 octets queued |
| TcpSessions.TCPSession.ResetConnection | netcore/src/jni/core/TCPSession.cpp:513-527 | closes the session at the left edge and leaves one RST to the Router to free |
| TcpSessions.TCPSession.Append | netcore/src/jni/core/TCPSession.cpp:546-558 | queue, counters and stream after a push; the new datagram cannot be dropped by the flush that follows |
| TcpSessions.TCPSession.PushInBackQueue | netcore/src/jni/core/TCPSession.cpp:536-563 | refused exactly when more was acknowledged than sent; otherwise the queue ends with a new datagram of that flag and payload that acknowledges what is expected next; before the first reset, for every flag and payload, the connection stays clean exactly when the left edge is a boundary and payload follows the SYN and no FIN |
| TcpSessions.TCPSession.Finish | netcore/src/jni/core/TCPSession.cpp:370-379 | the FIN is pushed exactly when no more was acknowledged than pushed; when everything pushed was acknowledged the state follows the diagram, without a reset, otherwise the push resets the connection and the state still goes on, from CLOSED to LAST_ACK |
| TcpSessions.TCPSession.FlushBackQueue | netcore/src/jni/core/TCPSession.cpp:346-424 | with nothing left to wait for, pushes the FIN exactly when the remote has finished, the state is open and no more was acknowledged than pushed, or else sends nothing; otherwise the end of the queue stays, and of it exactly the front goes to the Router, if it is at the left edge and the window admits it; the tunnel is resumed below 2^17 octets; before the first reset, it resets exactly when the left edge is no boundary and something is left or the FIN pushed |
| TcpSessions.TCPSession.SwitchState | netcore/src/jni/core/TCPSession.cpp:435-447 | entering CLOSED gives up the tunnel, once |
| TcpSessions.TCPSession.Handshake | netcore/src/jni/core/TCPSession.cpp:173-212 | the SYN that created the session establishes the invariant, SYN_RCVED, the peer's base, window and scale, and queues the SYN and ACK that acknowledges it |
| TcpSessions.TCPSession.TakeAck | netcore/src/jni/core/TCPSession.cpp:125-127 | moves the left edge forwards only, and notes whether it landed on a boundary |
| TcpSessions.TCPSession.OnReceiveFIN | netcore/src/jni/core/TCPSession.cpp:225-269 | expects the number after the FIN, queues its acknowledgement, and goes from ESTABLISHED to CLOSE_WAIT, from FIN_WAIT1 to TIME_WAIT or CLOSING, from FIN_WAIT2 to TIME_WAIT, unless more was acknowledged than sent; before the first reset, it resets exactly when the acknowledgement is queued and the left edge is no boundary, and the change of state follows even then, which leaves a dead session in a state after CLOSED |
| TcpSessions.TCPSession.OnFinAnswered | netcore/src/jni/core/TCPSession.cpp:240-262 | ESTABLISHED, FIN_WAIT1 and FIN_WAIT2 go where the FIN leads them, also when the acknowledgement of it has just closed the session; other states stay |
| TcpSessions.TCPSession.OnReceiveRST | netcore/src/jni/core/TCPSession.cpp:214-223 | closes, leaving queues and counters as they are |
| TcpSessions.TCPSession.InsertPending | netcore/src/jni/core/TCPSession.cpp:316-343 | fresh payload at the expected number is accepted whole at the end and has the open tunnel written to; a number queued already is not queued again |
| TcpSessions.TCPSession.EnqueueIfNeed | netcore/src/jni/core/TCPSession.cpp:300-344 | a replay is answered and not queued, any other payload leaves the back path alone and is queued exactly when its number does not wait already; payload at the expected number extends the accepted stream by exactly itself |
| TcpSessions.TCPSession.OnAcknowledged | netcore/src/jni/core/TCPSession.cpp:129-138 | the state an acknowledgement that is not old leads to, and that it is a step forwards |
| TcpSessions.TCPSession.OnReceiveSegment | netcore/src/jni/core/TCPSession.cpp:123-166 | an old acknowledgement changes nothing but the window; any other moves the left edge to itself before the payload is looked at and, before the first reset, resets exactly when it is no boundary and something is queued to find a gap before: a datagram that remains, the acknowledgement of a payload, or the FIN |
| TcpSessions.TCPSession.OnReceiveAck | netcore/src/jni/core/TCPSession.cpp:126-157 | in SYN_RCVED and ESTABLISHED expected payload is accepted, expected next moves past it, and in ESTABLISHED a new acknowledgement of it is queued; replays change nothing on the forward path; when the connection is reset, exactly |
| TcpSessions.TCPSession.Accept | netcore/src/jni/core/TCPSession.cpp:95-171 | every packet keeps the session invariant; a SYN, a FIN, an RST, an old and a new acknowledgement each have their effect on the edges, the state, the accepted stream, the forward queue and the answer; before the first reset, the packet resets exactly when one condition on it and on the state before it fails, and that reset is the disorder branch |
| TcpSessions.TCPSession.OnTunnelDataBack | netcore/src/jni/core/TCPSession.cpp:644-680 | all of the data extends the stream in slices of 61440 octets and a last one, or none exactly when more was acknowledged than sent; before the first reset, data resets the connection exactly when it is not refused and the left edge is no boundary, or follows the FIN; no data at all is the end of the remote; at 2^18 octets queued the tunnel is paused, below that it stays as it was, below 2^17 an established one is resumed |
| TcpSessions.TCPSession.PauseIfFull | netcore/src/jni/core/TCPSession.cpp:671-674 | an open tunnel is no longer read exactly when 2^18 octets are queued, and the data queued while reading is below that |
| TcpSessions.TCPSession.OnTunnelWritable | netcore/src/jni/core/TCPSession.cpp:682-725 | the tunnel takes the forward queue from its front, partly or whole: octets taken followed by the flattened queue stay the same in every state; something is left only when its last answer was that it took nothing, and then it is no longer written to; an error re-enters the session as a disconnection, and only then can it be reset |
| TcpSessions.TCPSession.Consume | netcore/src/jni/core/TCPSession.cpp:697-706 | octets taken and octets queued together stay the same |
| TcpSessions.TCPSession.OnTunnelDisconnected | netcore/src/jni/core/TCPSession.cpp:747-771 | ESTABLISHED and CLOSE_WAIT finish in order; every other state closes, FIN_WAIT1, FIN_WAIT2, CLOSING and TIME_WAIT without a reset and the rest with one; before the first reset, finishing resets exactly when it finds a gap |
| TcpSessions.TCPSession.OnRemoteFinished | netcore/src/jni/core/TCPSession.cpp:529-534 | the remote end has finished: with nothing left unsent or unacknowledged the FIN follows at once; before the first reset, it resets exactly when the left edge is no boundary and something is left or the FIN pushed |
| TcpSessions.TCPSession.ClearBackQueue | netcore/src/jni/core/TCPSession.cpp:472-479 | every queued datagram is freed, or aborted in the Router's queue |
| TcpSessions.TCPSession.Destroy | netcore/src/jni/core/TCPSession.cpp:82-93 | nothing the session built stays allocated except in the Router's queue, flagged to be freed there, and only an RST there is still written |
| TcpSessions.TCPSession.Undisturbed | netcore/src/jni/core/Router.cpp:71-98 | a session's invariant survives other sessions' and the Router's additions to the shared queue |
| TcpSessions.TCPSession.Drained | netcore/src/jni/core/Router.cpp:127-179 | a session's invariant survives the Router taking datagrams off the shared queue |
| Relays.Relay.Dispatch | netcore/src/jni/core/Router.cpp:192-213 | an event for one session is its handler's step, with all that step does to its streams, its answer and its reset, and keeps every session's invariant |
| Relays.Relay.Open | netcore/src/jni/core/Router.cpp:192-213 | a packet without a session makes one, in SYN_RCVED and with its ends, exactly when it is a SYN and its tunnel can be established |
| Relays.Relay.Step | netcore/src/jni/core/Router.cpp:105-213 | a packet is handled by the session found, or else makes one or is dropped; an event is handled by its session; a writable tun device writes until it takes no more; a session that expires is gone |
| Relays.Relay.Release | netcore/src/jni/core/Router.cpp:231-247 | destroying a session keeps the others and accounts for what it leaves behind |
| Relays.Relay.OnWritable | netcore/src/jni/core/Router.cpp:127-179 | a writable tun device takes datagrams off the front in order, whoever handed them over, until it takes no more, and keeps every session's invariant |
| Relays.Relay.Run | netcore/src/jni/core/Router.cpp:105-213 | every interleaving of steps, each made in its turn, keeps the ownership invariant, the order in which each session's datagrams pass, and what every session promises by itself |
| Relays.Relay.Teardown | netcore/src/jni/core/Router.cpp:29-40 | sessions first, then the Router's queue: every datagram is freed |
| Reactors.EpollReactor.EpollCtl | netcore/src/jni/reactor/EpollReactor.cpp:84-106 | may fail at any time; adding succeeds only for a descriptor the kernel does not have |
| Reactors.EpollReactor.AddEvent | netcore/src/jni/reactor/EpollReactor.cpp:66-114 | a new descriptor gets a new stub exactly when the kernel takes it, and the refused stub is freed; one that is registered keeps its stub, with the new handler and the events added even when the kernel refuses the change; the result is the kernel's answer |
| Reactors.EpollReactor.DelEvent | netcore/src/jni/reactor/EpollReactor.cpp:116-159 | narrows a registration, or removes it when nothing is left, deferring the stub; when the kernel refuses, the stub has lost the events all the same and stays registered with its handler; the result is the kernel's answer |
| Reactors.EpollReactor.Defer | netcore/src/jni/reactor/EpollReactor.cpp:150-155 | a removed stub loses its event and its listener and waits to be freed |
| Reactors.EpollReactor.HeldStub | netcore/src/jni/reactor/EpollReactor.cpp:270-276 | a stub of the current batch is allocated, and has a listener exactly as long as it is registered |
| Reactors.EpollReactor.DispatchOne | netcore/src/jni/reactor/EpollReactor.cpp:272-294 | what happened, in the order reading, writing, exception, each at most once, the first to the handler the stub had, cut short only when the stub is removed; readable data is reported first; a stub removed before its turn gets nothing |
| Reactors.EpollReactor.Snapshot | netcore/src/jni/reactor/EpollReactor.cpp:248-254 | the snapshot is the stubs registered |
| Reactors.EpollReactor.DispatchCheck | netcore/src/jni/reactor/EpollReactor.cpp:247-266 | every stub of the snapshot stays allocated until the check ends; each registered before and after it was checked, at the handler it had unless it was given another |
| Reactors.EpollReactor.CleanDeletedEvents | netcore/src/jni/reactor/EpollReactor.cpp:239-245 | exactly the deferred stubs are freed, each once |
| Reactors.EpollReactor.Work | netcore/src/jni/reactor/EpollReactor.cpp:213-222 | a turn of the loop: the callbacks of the batch, event after event in the order of DispatchOne, and then, exactly when more than 10 seconds have passed since the last time, a check of every stub registered before and after the turn; what was removed is freed |
| Reactors.EpollReactor.Start | netcore/src/jni/reactor/EpollReactor.cpp:190-227 | the loop makes one turn of every batch waited for, in order, goes on after an interrupted wait and ends at a failed one; the callbacks made are those of its turns, one turn after the other, with checks when they are due; nothing removed waits to be freed after a turn |

## Left out

- 32-bit wrap-around of relative sequence numbers and of the byte counters: numbers are unbounded, header fields are taken modulo 2^32, and the raw numbers of incoming packets have 32 bits; `compare_u32` and `TCPDatagram::compare` are plain comparisons, as they are for numbers below 2^31 - 1.
- Selective acknowledgements: `onSack` reads the option's kind as its length and returns early, so `mACKed` is always false.
- What the tunnel has room for (`getAvailableBufferSize` of the direct tunnel) is arbitrary.
- `TcpSessions.TCPSession.Consume`: the forward queue holds values, not datagram objects, so deleting its datagrams is not tracked; the datagrams shared with the Router are objects whose deletion is.
- `Socks5.Socks5Proxy.SendQueue`: a proxy's send queue holds the unsent octets of each segment rather than segment objects; the decrypt buffer is a segment object.
- `TcpSessions.TCPSession.Run`: the tunnel of a session is the direct one; a session over a proxy has the same handlers, and its tunnel's own behaviour is proved in `Socks5`.
- `TcpSessions.TCPSession.Handshake`: a session is created and given its SYN in one step, as `route` does; no event reaches a session before that.
- `Ciphers.Cipher.Decrypt`: ciphertext is a window onto parcels made by `encrypt`, and so are the octets a proxy reads in `Socks5.Socks5Proxy.Run`; malformed ciphertext is not modelled.
- `Links.Link.Run`: the octets of one socket arrive at the other in order; losing the connection ends the run.
- `Reactors.EpollReactor.Start`: one thread; the command pipe and the destructor of the reactor are not modelled, and the clock, and which handlers stop the loop, are arbitrary.
- The coder cache in `getCoder`, reactor registration from inside the proxy and the tunnel (kept as the flags `mReading` and `mWriting`), logging, capture and traffic events.
- Time: `hasClosed` and timeouts; a session may be destroyed between any two steps instead.
- IPv6, UDP sessions, DNS, string helpers, UID lookup, JNI and all Java files.
- The threaded event dispatcher: `dispatchSync` is a direct call to the Router.
