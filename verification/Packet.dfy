/** The TCP/IP packets a session builds (TCPSession.cpp:565-642) and the accessors that read them (IPAdpt.cpp:9-81). */
module Packets {
  import opened Bytes
  import opened Checksum

  const FIN: byte := 1
  const SYN: byte := 2
  const RST: byte := 4
  const PSH: byte := 8
  const ACK: byte := 16

  const PROTO_TCP: byte := 6
  const PROTO_UDP: byte := 17

  /** Whether any bit of a single-bit mask is set. */
  predicate HasFlag(flag: byte, mask: byte)
    requires mask > 0
  {
    flag / mask % 2 == 1
  }

  /** Addresses and ports as they lie in memory. */
  type Address = a: seq<byte> | |a| == 4 witness [0, 0, 0, 0]

  type Port = p: seq<byte> | |p| == 2 witness [0, 0]

  /** Source and destination of the packets built. */
  datatype Endpoints = Endpoints(src: Address, dst: Address, srcPort: Port, dstPort: Port)

  /** What a packet carries besides its endpoints and payload; numbers are absolute. */
  datatype Fields = Fields(flag: byte, seqNo: nat, ackNo: nat, window: word, windowScale: byte)

  /** A 32-bit number in network byte order. */
  function Net32(x: nat): (s: seq<byte>)
    ensures |s| == 4
  {
    [x / 0x100_0000 % 256, x / 0x1_0000 % 256, x / 256 % 256, x % 256]
  }

  function Net16(x: nat): (s: seq<byte>)
    ensures |s| == 2
  {
    [Hi(x), Lo(x)]
  }

  /** A checksum as the little-endian host stores it. */
  function Host16(x: nat): (s: seq<byte>)
    ensures |s| == 2
  {
    [Lo(x), Hi(x)]
  }

  function Options(f: Fields): (o: seq<byte>)
    ensures |o| == if HasFlag(f.flag, SYN) then 10 else 0
  {
    if HasFlag(f.flag, SYN) then [2, 4, 0x10, 0x27, 3, 3, f.windowScale, 4, 1, 0] else []
  }

  function IpHeader(e: Endpoints, ttlen: nat, checksum: nat): seq<byte> {
    [0x45, 0] + Net16(ttlen) + [0, 0, 0, 0, 64, PROTO_TCP] + Host16(checksum) + e.src + e.dst
  }

  function Pseudo(e: Endpoints, len: nat): seq<byte> {
    e.src + e.dst + [0, PROTO_TCP] + Net16(len)
  }

  /** The data offset is `(20+optlen)>>2` words. */
  function TcpHeader(e: Endpoints, f: Fields, checksum: nat): seq<byte> {
    e.srcPort + e.dstPort + Net32(f.seqNo) + Net32(f.ackNo)
    + [(20 + |Options(f)|) / 4 * 16, f.flag] + Net16(f.window) + Host16(checksum) + [0, 0]
  }

  function Complement(x: nat): word
    requires x < 0x1_0000
  {
    0xFFFF - x
  }

  function IpChecksum(e: Endpoints, ttlen: nat): word {
    Complement(Sum16(0, IpHeader(e, ttlen, 0)))
  }

  /** The four-part chain: pseudo header, TCP header without checksum, options, payload. */
  function TcpChecksum(e: Endpoints, f: Fields, data: seq<byte>): word {
    var len := 20 + |Options(f)| + |data|;
    Complement(Sum16(Sum16(Sum16(Sum16(0, Pseudo(e, len)), TcpHeader(e, f, 0)), Options(f)), data))
  }

  function Segment(e: Endpoints, f: Fields, data: seq<byte>): seq<byte> {
    TcpHeader(e, f, TcpChecksum(e, f, data)) + Options(f) + data
  }

  /** The packet `buildPackage` leaves in memory. */
  function Packet(e: Endpoints, f: Fields, data: seq<byte>): seq<byte> {
    var ttlen := 40 + |Options(f)| + |data|;
    IpHeader(e, ttlen, IpChecksum(e, ttlen)) + Segment(e, f, data)
  }

  lemma ComplementAccepted(before: seq<byte>, after: seq<byte>)
    requires |before| % 2 == 0
    requires SumLE(before + [0, 0] + after) < 0x1_0000_0000
    ensures var c := Complement(Sum16(0, before + [0, 0] + after)); Accepted(before + Host16(c) + after)
  {
    hide SumLE, Fold;
    var x := SumLE(before + [0, 0] + after);
    var c := Complement(Sum16(0, before + [0, 0] + after));
    Spliced(before, [0, 0], after);
    Spliced(before, Host16(c), after);
    FoldResidue(x);
    WordSum(0);
    WordSum(c);
    var y := SumLE(before + Host16(c) + after);
    assert y == x + c;
    AddComplement(x, Fold(x), c);
    AcceptedIfMultiple(before + Host16(c) + after);
  }

  lemma AddComplement(x: nat, f: nat, c: nat)
    requires f % 0xFFFF == x % 0xFFFF && f < 0x1_0000 && c == 0xFFFF - f && (f == 0 <==> x == 0)
    ensures (x + c) % 0xFFFF == 0 && x + c > 0
  {
  }

  lemma WordSum(c: nat)
    requires c < 0x1_0000
    ensures SumLE(Host16(c)) == c
  {
    assert Host16(c)[2..] == [];
    WordOfHiLo(c);
  }

  lemma Spliced(a: seq<byte>, w: seq<byte>, b: seq<byte>)
    requires |a| % 2 == 0 && |w| == 2
    ensures SumLE(a + w + b) == SumLE(a) + SumLE(w) + SumLE(b)
  {
    SumLESplit(a, w);
    SumLESplit(a + w, b);
  }

  /** The IP header a receiver reads sums to all ones. */
  lemma IpAccepted(e: Endpoints, ttlen: nat)
    ensures Accepted(IpHeader(e, ttlen, IpChecksum(e, ttlen)))
  {
    hide Accepted, SumLE;
    var before := [0x45, 0] + Net16(ttlen) + [0, 0, 0, 0, 64, PROTO_TCP];
    var after := e.src + e.dst;
    var plain := IpHeader(e, ttlen, 0);
    assert plain == before + [0, 0] + after;
    NoOverflow(0, plain);
    ComplementAccepted(before, after);
    assert IpHeader(e, ttlen, IpChecksum(e, ttlen)) == before + Host16(IpChecksum(e, ttlen)) + after;
  }

  /** The four-part chain is one sum over the pseudo header and the segment. */
  lemma TcpChecksumIsOneSum(e: Endpoints, f: Fields, data: seq<byte>)
    requires |data| <= 0xFFFF
    ensures var len := 20 + |Options(f)| + |data|;
      TcpChecksum(e, f, data) == Complement(Sum16(0, Pseudo(e, len) + TcpHeader(e, f, 0) + Options(f) + data))
  {
    hide Sum16, TcpHeader, Pseudo, Options;
    Lengths(e, f, data);
    var p, h, o := Pseudo(e, 20 + |Options(f)| + |data|), TcpHeader(e, f, 0), Options(f);
    Chained(0, p, h);
    Chained(0, p + h, o);
    Chained(0, p + h + o, data);
  }

  lemma Lengths(e: Endpoints, f: Fields, data: seq<byte>)
    ensures forall len :: |Pseudo(e, len)| == 12
    ensures forall c :: |TcpHeader(e, f, c)| == 20
    ensures forall t, c :: |IpHeader(e, t, c)| == 20
    ensures |Options(f)| % 2 == 0 && |Options(f)| <= 10
  {
  }

  /** Pseudo header and segment sum to all ones. */
  lemma SegmentAccepted(e: Endpoints, f: Fields, data: seq<byte>)
    requires |data| <= 0xFFFF
    ensures Accepted(Pseudo(e, 20 + |Options(f)| + |data|) + Segment(e, f, data))
  {
    hide Accepted, SumLE, Options;
    var len := 20 + |Options(f)| + |data|;
    var front := e.srcPort + e.dstPort + Net32(f.seqNo) + Net32(f.ackNo)
      + [(20 + |Options(f)|) / 4 * 16, f.flag] + Net16(f.window);
    var before := Pseudo(e, len) + front;
    var after := [0, 0] + Options(f) + data;
    var plain := Pseudo(e, len) + TcpHeader(e, f, 0) + Options(f) + data;
    var c := TcpChecksum(e, f, data);
    assert plain == before + [0, 0] + after;
    TcpChecksumIsOneSum(e, f, data);
    NoOverflow(0, plain);
    ComplementAccepted(before, after);
    assert Pseudo(e, len) + Segment(e, f, data) == before + Host16(c) + after;
  }

  // The header accessors.

  function GetHeaderLen(ip: seq<byte>): nat
    requires |ip| >= 20
  {
    ip[0] % 16 * 4
  }

  function GetTTLEN(ip: seq<byte>): nat
    requires |ip| >= 20
  {
    Word(ip[2], ip[3])
  }

  /** Whether the header says the packet has at least a whole transport header of `len` octets. */
  ghost predicate HoldsTransport(ip: seq<byte>, len: nat) {
    |ip| >= 20 && |ip| >= GetHeaderLen(ip) + len
  }

  function GetTCPHeaderLen(ip: seq<byte>): nat
    requires HoldsTransport(ip, 20)
  {
    ip[GetHeaderLen(ip) + 12] / 16 * 4
  }

  function GetPayloadOffset(ip: seq<byte>): nat
    requires HoldsTransport(ip, 20)
  {
    if ip[9] == PROTO_UDP then GetHeaderLen(ip) + 8
    else if ip[9] == PROTO_TCP then GetHeaderLen(ip) + GetTCPHeaderLen(ip)
    else 0
  }

  function GetPayloadLen(ip: seq<byte>): int
    requires HoldsTransport(ip, 20)
  {
    GetTTLEN(ip) - GetPayloadOffset(ip)
  }

  function GetSrcPort(ip: seq<byte>): Port
    requires HoldsTransport(ip, 20)
  {
    if ip[9] == PROTO_UDP || ip[9] == PROTO_TCP then ip[GetHeaderLen(ip)..][..2] else [0, 0]
  }

  function GetDestPort(ip: seq<byte>): Port
    requires HoldsTransport(ip, 20)
  {
    if ip[9] == PROTO_UDP || ip[9] == PROTO_TCP then ip[GetHeaderLen(ip)..][2..4] else [0, 0]
  }

  /** The sequence number field of a TCP packet. */
  function SeqField(ip: seq<byte>): seq<byte>
    requires HoldsTransport(ip, 20)
  {
    ip[GetHeaderLen(ip)..][4..8]
  }

  /** The acknowledgement number field of a TCP packet. */
  function AckField(ip: seq<byte>): seq<byte>
    requires HoldsTransport(ip, 20)
  {
    ip[GetHeaderLen(ip)..][8..12]
  }

  /**
   * What a receiver checks in network byte order: the header sum of section 3.1 of RFC 791, and the sum of
   * section 3.1 of RFC 793 over the pseudo header it rebuilds and the segment the total length delimits.
   */
  ghost predicate ReceiverAccepts(ip: seq<byte>) {
    && |ip| >= 20
    && 20 <= GetTTLEN(ip) <= |ip|
    && Accepted(ip[..20])
    && Accepted(ip[12..20] + [0, ip[9]] + Net16(GetTTLEN(ip) - 20) + ip[20..GetTTLEN(ip)])
  }

  lemma PacketLayout(e: Endpoints, f: Fields, data: seq<byte>)
    requires 40 + |Options(f)| + |data| <= 0xFFFF
    ensures var ip, ttlen := Packet(e, f, data), 40 + |Options(f)| + |data|;
      && |ip| == ttlen
      && ip[..20] == IpHeader(e, ttlen, IpChecksum(e, ttlen))
      && ip[20..] == Segment(e, f, data)
      && ip[0] == 0x45 && ip[9] == PROTO_TCP && GetTTLEN(ip) == ttlen
      && ip[12..20] == e.src + e.dst
  {
    hide Sum16, Options;
    var ip, ttlen := Packet(e, f, data), 40 + |Options(f)| + |data|;
    var header := IpHeader(e, ttlen, IpChecksum(e, ttlen));
    WordOfHiLo(ttlen);
    assert ip[..20] == header;
    assert header[2] == Hi(ttlen) && header[3] == Lo(ttlen);
    assert header[12..20] == e.src + e.dst;
    assert ip[12..20] == header[12..20];
  }

  /** Every packet passes the receiver's checks, whatever its flags and whether or not its payload is odd. */
  lemma PacketAccepted(e: Endpoints, f: Fields, data: seq<byte>)
    requires 40 + |Options(f)| + |data| <= 0xFFFF
    ensures ReceiverAccepts(Packet(e, f, data))
  {
    hide Accepted, Options, Packet, Segment, IpHeader;
    var ip, ttlen := Packet(e, f, data), 40 + |Options(f)| + |data|;
    PacketLayout(e, f, data);
    IpAccepted(e, ttlen);
    SegmentAccepted(e, f, data);
    assert ip[20..ttlen] == ip[20..];
    assert e.src + e.dst + [0, PROTO_TCP] + Net16(ttlen - 20) == Pseudo(e, ttlen - 20);
  }

  lemma Net32Number(x: nat)
    ensures var s := Net32(x);
      s[0] as int * 0x100_0000 + s[1] as int * 0x1_0000 + s[2] as int * 0x100 + s[3] == x % 0x1_0000_0000
  {
    var a, b, c := x / 256, x / 256 / 256, x / 256 / 256 / 256;
    assert x / 0x1_0000 == b && x / 0x100_0000 == c;
    assert x == 256 * a + x % 256 && a == 256 * b + a % 256 && b == 256 * c + b % 256;
    assert x == 0x1_0000_0000 * (c / 256)
      + (0x100_0000 * (c % 256) + 0x1_0000 * (b % 256) + 0x100 * (a % 256) + x % 256);
  }

  /**
   * Every octet of the headers where sections 3.1 of RFC 791 and RFC 793 have it, numbers with the high octet first.
   */
  lemma HeaderOctets(e: Endpoints, f: Fields, data: seq<byte>)
    requires 40 + |Options(f)| + |data| <= 0xFFFF
    ensures var ip := Packet(e, f, data);
      && |ip| == (if f.flag / 2 % 2 == 1 then 50 else 40) + |data|
      && ip[0] == 0x45 && ip[1] == 0 && ip[2] as int * 0x100 + ip[3] == |ip| && ip[4..8] == [0, 0, 0, 0]
      && ip[8] == 64 && ip[9] == 6 && ip[12..16] == e.src && ip[16..20] == e.dst
      && ip[20..22] == e.srcPort && ip[22..24] == e.dstPort
      && ip[24] as int * 0x100_0000 + ip[25] as int * 0x1_0000 + ip[26] as int * 0x100 + ip[27]
         == f.seqNo % 0x1_0000_0000
      && ip[28] as int * 0x100_0000 + ip[29] as int * 0x1_0000 + ip[30] as int * 0x100 + ip[31]
         == f.ackNo % 0x1_0000_0000
      && ip[32] == (if f.flag / 2 % 2 == 1 then 0x70 else 0x50) && ip[33] == f.flag
      && ip[34] as int * 0x100 + ip[35] == f.window && ip[38] == ip[39] == 0
      && (f.flag / 2 % 2 == 1 ==> ip[40..50] == [2, 4, 0x10, 0x27, 3, 3, f.windowScale, 4, 1, 0])
      && ip[|ip| - |data|..] == data
    ensures FIN == 1 && SYN == 2 && RST == 4 && PSH == 8 && ACK == 16
  {
    hide Sum16, Packet, IpHeader, Net32;
    PacketLayout(e, f, data);
    IpOctets(e, 40 + |Options(f)| + |data|);
    TcpOctets(e, f, TcpChecksum(e, f, data));
    var ip, seg, o := Packet(e, f, data), Segment(e, f, data), Options(f);
    var h, t := ip[..20], TcpHeader(e, f, TcpChecksum(e, f, data));
    assert forall k :: 0 <= k < 20 ==> ip[k] == h[k] && seg[k] == t[k] == ip[20 + k];
    assert ip[4..8] == h[4..8] && ip[12..16] == h[12..16] && ip[16..20] == h[16..20];
    assert ip[20..22] == t[..2] && ip[22..24] == t[2..4];
    assert seg[20..20 + |o|] == o && ip[40..40 + |o|] == seg[20..20 + |o|];
    assert ip[|ip| - |data|..] == seg[20 + |o|..] == data;
  }

  lemma IpOctets(e: Endpoints, ttlen: nat)
    requires ttlen < 0x1_0000
    ensures var h := IpHeader(e, ttlen, IpChecksum(e, ttlen));
      && |h| == 20 && h[0] == 0x45 && h[1] == 0 && h[2] as int * 0x100 + h[3] == ttlen && h[4..8] == [0, 0, 0, 0]
      && h[8] == 64 && h[9] == 6 && h[12..16] == e.src && h[16..20] == e.dst
  {
    hide Sum16;
  }

  lemma TcpOctets(e: Endpoints, f: Fields, checksum: nat)
    ensures var h := TcpHeader(e, f, checksum);
      && |h| == 20 && h[..2] == e.srcPort && h[2..4] == e.dstPort
      && h[4] as int * 0x100_0000 + h[5] as int * 0x1_0000 + h[6] as int * 0x100 + h[7] == f.seqNo % 0x1_0000_0000
      && h[8] as int * 0x100_0000 + h[9] as int * 0x1_0000 + h[10] as int * 0x100 + h[11] == f.ackNo % 0x1_0000_0000
      && h[12] == (if f.flag / 2 % 2 == 1 then 0x70 else 0x50) && h[13] == f.flag
      && h[14] as int * 0x100 + h[15] == f.window && h[18] == h[19] == 0
  {
    hide Net32;
    Net32Number(f.seqNo);
    Net32Number(f.ackNo);
    var h := TcpHeader(e, f, checksum);
    assert h[4..8] == Net32(f.seqNo) && h[8..12] == Net32(f.ackNo);
    assert forall k :: 0 <= k < 4 ==> h[4 + k] == h[4..8][k] && h[8 + k] == h[8..12][k];
  }

  /**
   * The accessors read back ports, sequence and acknowledgement number from every packet. They read back the payload
   * and its length exactly when the packet is no SYN: its data offset covers 28 of the 30 octets of header and options.
   */
  lemma AccessorsReadBack(e: Endpoints, f: Fields, data: seq<byte>)
    requires 40 + |Options(f)| + |data| <= 0xFFFF
    ensures var ip := Packet(e, f, data);
      && HoldsTransport(ip, 20)
      && GetSrcPort(ip) == e.srcPort && GetDestPort(ip) == e.dstPort
      && SeqField(ip) == Net32(f.seqNo) && AckField(ip) == Net32(f.ackNo)
      && (GetPayloadLen(ip) == |data| <==> !HasFlag(f.flag, SYN))
      && (!HasFlag(f.flag, SYN) ==> GetPayloadOffset(ip) == 40 && ip[40..] == data)
  {
    hide Sum16, Packet, IpHeader;
    PacketLayout(e, f, data);
    var ip, seg := Packet(e, f, data), Segment(e, f, data);
    var h := TcpHeader(e, f, TcpChecksum(e, f, data));
    assert seg[..20] == h;
    assert h[..2] == e.srcPort && h[2..4] == e.dstPort && h[4..8] == Net32(f.seqNo) && h[8..12] == Net32(f.ackNo);
    assert h[12] == (20 + |Options(f)|) / 4 * 16;
    assert seg[..2] == h[..2] && seg[2..4] == h[2..4] && seg[4..8] == h[4..8] && seg[8..12] == h[8..12];
    assert ip[32] == seg[12];
    if !HasFlag(f.flag, SYN) {
      assert seg[20..] == data;
      assert ip[40..] == seg[20..];
    }
  }

  /** Stores the octets of `s` at `off`. */
  method Put(a: array<byte>, off: nat, s: seq<byte>)
    requires off + |s| <= a.Length
    modifies a
    ensures a[..] == old(a[..off]) + s + old(a[off + |s|..])
  {
    forall i | 0 <= i < |s| {
      a[off + i] := s[i];
    }
  }

  /** The IP header, its checksum summed while that field is still zero. */
  method PutIpHeader(p: array<byte>, e: Endpoints, ttlen: nat)
    requires p.Length >= 20
    modifies p
    ensures p[..20] == IpHeader(e, ttlen, IpChecksum(e, ttlen)) && p[20..] == old(p[20..])
  {
    hide Sum16, IpHeader;
    var h := IpHeader(e, ttlen, 0);
    IpHeaderWithChecksum(e, ttlen, 0);
    Put(p, 0, h);
    ghost var rest := p[20..];
    assert p[..] == h + rest;
    assert p[0..20] == p[..][..20];
    var c := ComputeChecksum(0, p, 0, 20);
    Put(p, 10, Host16(Complement(c)));
    IpHeaderWithChecksum(e, ttlen, Complement(c));
    assert p[..] == (h[..10] + Host16(Complement(c)) + h[12..]) + rest;
    assert p[..20] == p[..][..20] && p[20..] == p[..][20..];
  }

  lemma IpHeaderWithChecksum(e: Endpoints, ttlen: nat, c: nat)
    ensures |IpHeader(e, ttlen, 0)| == 20
    ensures IpHeader(e, ttlen, c) == IpHeader(e, ttlen, 0)[..10] + Host16(c) + IpHeader(e, ttlen, 0)[12..]
  {
  }

  /** The four-part chain over pseudo header, header, options and payload. */
  method ChainChecksums(p: array<byte>, e: Endpoints, f: Fields, data: array<byte>, dp: nat, length: nat)
    returns (c: nat)
    requires dp + length <= data.Length && p.Length >= 40 + |Options(f)|
    requires p[20..40] == TcpHeader(e, f, 0) && p[40..40 + |Options(f)|] == Options(f)
    ensures c < 0x1_0000 && Complement(c) == TcpChecksum(e, f, data[dp..dp + length])
  {
    hide Sum16, Options, TcpHeader;
    var optlen := |Options(f)|;
    var h := Pseudo(e, 20 + optlen + length);
    var pseudo := new byte[12](i requires 0 <= i < 12 => h[i]);
    assert pseudo[0..12] == h;
    c := ComputeChecksum(0, pseudo, 0, 12);
    c := ComputeChecksum(c, p, 20, 20);
    c := ComputeChecksum(c, p, 40, optlen);
    c := ComputeChecksum(c, data, dp, length);
  }

  /** TCP header and options before the payload already in place, then the checksum over all four parts. */
  method PutTcpHeader(p: array<byte>, e: Endpoints, f: Fields, data: array<byte>, dp: nat, length: nat)
    requires p != data && dp + length <= data.Length
    requires p.Length == 40 + |Options(f)| + length
    requires p[40 + |Options(f)|..] == data[dp..dp + length]
    modifies p
    ensures p[..] == old(p[..20]) + Segment(e, f, data[dp..dp + length])
  {
    hide Sum16, Options, TcpHeader;
    ghost var ip, payload := p[..20], data[dp..dp + length];
    var h, o := TcpHeader(e, f, 0), Options(f);
    Lengths(e, f, payload);
    Put(p, 20, h);
    Put(p, 40, o);
    assert p[..] == ip + h + o + payload;
    assert p[20..40] == p[..][20..40] && p[40..40 + |o|] == p[..][40..40 + |o|];
    var c := ChainChecksums(p, e, f, data, dp, length);
    Put(p, 36, Host16(Complement(c)));
    HeaderWithChecksum(e, f, Complement(c));
    Patched(ip, h, o, payload, Host16(Complement(c)));
  }

  lemma Patched(ip: seq<byte>, h: seq<byte>, o: seq<byte>, payload: seq<byte>, w: seq<byte>)
    requires |ip| == 20 && |h| == 20 && |w| == 2
    ensures var all := ip + h + o + payload;
      all[..36] + w + all[38..] == ip + ((h[..16] + w + h[18..]) + o + payload)
  {
  }

  lemma HeaderWithChecksum(e: Endpoints, f: Fields, c: nat)
    ensures |TcpHeader(e, f, 0)| == 20
    ensures TcpHeader(e, f, c) == TcpHeader(e, f, 0)[..16] + Host16(c) + TcpHeader(e, f, 0)[18..]
  {
    hide Options;
  }

  /** Builds a packet in a buffer of its own: payload, IP header, TCP header. */
  method BuildPackage(e: Endpoints, f: Fields, data: array<byte>, dp: nat, length: nat) returns (p: array<byte>)
    requires dp + length <= data.Length && length <= 0xFFFF
    ensures fresh(p) && p[..] == Packet(e, f, data[dp..dp + length])
  {
    hide Options, Segment, IpHeader, IpChecksum;
    var optlen := |Options(f)|;
    var ttlen := 40 + optlen + length;
    p := new byte[ttlen](_ => 0);
    Copy(p, 40 + optlen, data, dp, length);
    assert p[40 + optlen..] == p[..ttlen][40 + optlen..];
    PutIpHeader(p, e, ttlen);
    assert p[40 + optlen..] == p[20..][20 + optlen..];
    PutTcpHeader(p, e, f, data, dp, length);
  }
}
