/** The TCP session engine (TCPSession.cpp). */
module TcpSessions {
  import opened Bytes
  import opened Packets
  import opened Routers

  const TCP_SESSION_BUFFER_SIZE := 0x4_0000
  const TCP_MAX_SEND_WINDOW := 0x1_0000
  const TCP_MAX_SEND_PACKET := 1
  const TCP_IP_PAYLOAD_SIZE := 61440

  datatype TcpState =
    LISTEN | SYN_RCVED | ESTABLISHED | FIN_WAIT1 | FIN_WAIT2 | CLOSE_WAIT | CLOSING | LAST_ACK | TIME_WAIT | CLOSED
  {
    /** Position in the order of section 3.2 of RFC 793. */
    function Rank(): nat {
      match this
      case LISTEN => 0
      case SYN_RCVED => 1
      case ESTABLISHED => 2
      case FIN_WAIT1 => 3
      case CLOSE_WAIT => 3
      case FIN_WAIT2 => 4
      case CLOSING => 4
      case LAST_ACK => 4
      case TIME_WAIT => 5
      case CLOSED => 6
    }

    /** No FIN has been sent yet. */
    predicate Open() { LISTEN? || SYN_RCVED? || ESTABLISHED? || CLOSE_WAIT? }

    /** The states that may follow this one in the diagram of section 3.2 of RFC 793, in any number of steps. */
    predicate Leads(to: TcpState) {
      this == to || to.CLOSED? || LISTEN?
      || match this
         case SYN_RCVED => !to.LISTEN?
         case ESTABLISHED => !to.LISTEN? && !to.SYN_RCVED?
         case FIN_WAIT1 => to.FIN_WAIT2? || to.CLOSING? || to.TIME_WAIT?
         case FIN_WAIT2 => to.TIME_WAIT?
         case CLOSE_WAIT => to.LAST_ACK?
         case CLOSING => to.TIME_WAIT?
         case _ => false
    }
  }

  /** The states never move backwards. */
  lemma LeadsForward(s: TcpState, t: TcpState, u: TcpState)
    requires s.Leads(t) && t.Leads(u)
    ensures s.Leads(u) && (s == u || s.Rank() < u.Rank())
  {
  }

  lemma LeadsSelf(s: TcpState)
    ensures s.Leads(s)
  {
  }

  /** Where pushing the FIN leads. */
  function AfterFin(state: TcpState): TcpState {
    if state.ESTABLISHED? then FIN_WAIT1 else LAST_ACK
  }

  /** Where the peer's FIN leads, depending on whether its acknowledgement is not old. */
  function AfterPeerFin(state: TcpState, recent: bool): TcpState {
    match state
    case ESTABLISHED => CLOSE_WAIT
    case FIN_WAIT1 => if recent then TIME_WAIT else CLOSING
    case FIN_WAIT2 => TIME_WAIT
    case _ => state
  }

  /** Where an acknowledgement that is not old leads. */
  function AfterAck(state: TcpState): TcpState {
    match state
    case SYN_RCVED => ESTABLISHED
    case FIN_WAIT1 => FIN_WAIT2
    case LAST_ACK => CLOSED
    case CLOSING => TIME_WAIT
    case _ => state
  }

  /**
   * Where the code goes from each state: on the FIN pushed, on the peer's FIN, on an acknowledgement that is not old.
   */
  lemma Transitions()
    ensures AfterFin(ESTABLISHED) == FIN_WAIT1 && AfterFin(CLOSE_WAIT) == LAST_ACK && AfterFin(CLOSED) == LAST_ACK
    ensures forall recent :: AfterPeerFin(ESTABLISHED, recent) == CLOSE_WAIT
    ensures AfterPeerFin(FIN_WAIT1, true) == TIME_WAIT && AfterPeerFin(FIN_WAIT1, false) == CLOSING
    ensures forall recent :: AfterPeerFin(FIN_WAIT2, recent) == TIME_WAIT
    ensures AfterAck(SYN_RCVED) == ESTABLISHED && AfterAck(FIN_WAIT1) == FIN_WAIT2
    ensures AfterAck(LAST_ACK) == CLOSED && AfterAck(CLOSING) == TIME_WAIT
    ensures forall state | state !in {SYN_RCVED, FIN_WAIT1, LAST_ACK, CLOSING} :: AfterAck(state) == state
  {
  }

  /** The arrows of the diagram in section 3.2 of RFC 793 between these states, and an abort from any of them. */
  ghost predicate Arrow(from: TcpState, to: TcpState) {
    || to == CLOSED
    || (from, to) in {(LISTEN, SYN_RCVED), (SYN_RCVED, ESTABLISHED), (SYN_RCVED, FIN_WAIT1), (ESTABLISHED, FIN_WAIT1),
                      (ESTABLISHED, CLOSE_WAIT), (FIN_WAIT1, FIN_WAIT2), (FIN_WAIT1, CLOSING), (FIN_WAIT1, TIME_WAIT),
                      (FIN_WAIT2, TIME_WAIT), (CLOSE_WAIT, LAST_ACK), (CLOSING, TIME_WAIT)}
  }

  ghost predicate Walk(path: seq<TcpState>) {
    path != [] && forall i :: 0 < i < |path| ==> Arrow(path[i - 1], path[i])
  }

  /** One state leads to another exactly when a walk along the arrows does. */
  lemma LeadsExactly(s: TcpState, t: TcpState)
    ensures s.Leads(t) <==> exists path :: Walk(path) && path[0] == s && path[|path| - 1] == t
  {
    if s.Leads(t) {
      var path := Route(s, t);
      assert Walk(path) && path[0] == s && path[|path| - 1] == t;
    }
    forall path | Walk(path) && path[0] == s && path[|path| - 1] == t ensures s.Leads(t) {
      WalkLeads(path);
    }
  }

  /** A way from one state to another. */
  ghost function Route(s: TcpState, t: TcpState): (path: seq<TcpState>)
    requires s.Leads(t)
    ensures Walk(path) && path[0] == s && path[|path| - 1] == t
    decreases 10 - s.Rank()
  {
    if s == t then [s]
    else if Arrow(s, t) then [s, t]
    else if s == LISTEN then [s] + Route(SYN_RCVED, t)
    else if s == SYN_RCVED then [s] + Route(ESTABLISHED, t)
    else if s == ESTABLISHED && t == LAST_ACK then [s] + Route(CLOSE_WAIT, t)
    else [s] + Route(FIN_WAIT1, t)
  }

  lemma {:induction false} WalkLeads(path: seq<TcpState>)
    requires Walk(path)
    ensures path[0].Leads(path[|path| - 1])
  {
    if |path| > 1 {
      var init := path[..|path| - 1];
      WalkLeads(init);
      LeadsForward(path[0], init[|init| - 1], path[|path| - 1]);
    }
  }

  /** `TCP_RELATIVE_SEQ` on 32-bit numbers. */
  function RelativeSeq(seqNo: nat, base: nat): (r: nat)
    requires seqNo < 0x1_0000_0000 && base < 0x1_0000_0000
    ensures r < 0x1_0000_0000
  {
    if seqNo > base then seqNo - base else 0xFFFF_FFFF - base + seqNo
  }

  /** The macro is the distance from the base modulo 2^32 exactly when the number is above the base. */
  lemma RelativeSeqExact(seqNo: nat, base: nat)
    requires seqNo < 0x1_0000_0000 && base < 0x1_0000_0000
    ensures RelativeSeq(seqNo, base) == (seqNo - base) % 0x1_0000_0000 <==> seqNo > base
  {
  }

  // Sums and order over the immutable parts of a queue.

  /** Sequence numbers a datagram occupies. */
  function Advance(s: TCPDatagram): nat {
    if HasFlag(s.mFlag, FIN) || HasFlag(s.mFlag, SYN) then 1 else s.mLength
  }

  lemma PureAck(s: TCPDatagram)
    requires s.mFlag == ACK && s.mLength == 0
    ensures Advance(s) == 0
  {
  }

  lemma AdvanceIs(s: TCPDatagram)
    ensures Advance(s) == if HasFlag(s.mFlag, FIN) || HasFlag(s.mFlag, SYN) then 1 else s.mLength
  {
  }

  function PayloadSum(q: seq<TCPDatagram>): nat {
    if q == [] then 0 else q[0].mLength + PayloadSum(q[1..])
  }

  function CapacitySum(q: seq<TCPDatagram>): nat {
    if q == [] then 0 else |q[0].packet| + CapacitySum(q[1..])
  }

  /** Capacity of the datagrams that carry payload. */
  function DataCapacity(q: seq<TCPDatagram>): nat {
    if q == [] then 0 else (if q[0].mLength > 0 then |q[0].packet| else 0) + DataCapacity(q[1..])
  }

  lemma {:induction false} SumsPush(q: seq<TCPDatagram>, s: TCPDatagram)
    ensures PayloadSum(q + [s]) == PayloadSum(q) + s.mLength
    ensures CapacitySum(q + [s]) == CapacitySum(q) + |s.packet|
    ensures DataCapacity(q + [s]) == DataCapacity(q) + if s.mLength > 0 then |s.packet| else 0
  {
    if q == [] {
      assert q + [s] == [s];
    } else {
      assert (q + [s])[1..] == q[1..] + [s];
      SumsPush(q[1..], s);
    }
  }

  lemma {:induction false} DataCapacityBound(q: seq<TCPDatagram>)
    ensures DataCapacity(q) <= CapacitySum(q)
  {
    if q != [] {
      DataCapacityBound(q[1..]);
    }
  }

  function Last(q: seq<TCPDatagram>): TCPDatagram
    requires q != []
  {
    q[|q| - 1]
  }

  /** The first number a queue occupies that ends at `end`; pure acknowledgements occupy none. */
  function Start(q: seq<TCPDatagram>, end: nat): nat {
    if q == [] then end else if Advance(q[0]) == 0 then Start(q[1..], end) else q[0].mSeq
  }

  /**
   * Every datagram that occupies numbers ends where the next such one starts, and the last at `end`. A pure
   * acknowledgement lies at the start of what follows it or, in a chain that is not tight, before it.
   */
  ghost predicate Chain(q: seq<TCPDatagram>, end: nat, tight: bool) {
    q == [] ||
    (var next := Start(q[1..], end);
     && Chain(q[1..], end, tight)
     && if tight || Advance(q[0]) > 0 then q[0].mSeq + Advance(q[0]) == next else q[0].mSeq <= next)
  }

  lemma {:induction false} ChainLoose(q: seq<TCPDatagram>, end: nat)
    requires Chain(q, end, true)
    ensures Chain(q, end, false)
  {
    if q != [] {
      ChainLoose(q[1..], end);
    }
  }

  lemma {:induction false} ChainMonotone(q: seq<TCPDatagram>, end: nat, tight: bool)
    requires Chain(q, end, tight)
    ensures Start(q, end) <= end
    ensures forall s <- q | Advance(s) > 0 :: Start(q, end) <= s.mSeq && s.mSeq + Advance(s) <= end
    ensures q != [] ==> q[0].mSeq <= Start(q, end)
    ensures q != [] && tight ==> q[0].mSeq == Start(q, end)
  {
    if q != [] {
      ChainMonotone(q[1..], end, tight);
      assert forall s <- q :: s == q[0] || s in q[1..];
    }
  }

  lemma {:induction false} ChainBelow(q: seq<TCPDatagram>, end: nat)
    requires Chain(q, end, true)
    ensures forall s <- q :: s.mSeq <= end
  {
    if q != [] {
      ChainBelow(q[1..], end);
      ChainMonotone(q[1..], end, true);
      assert forall s <- q :: s == q[0] || s in q[1..];
    }
  }

  /** In a chain nothing starts inside its last datagram. */
  lemma {:induction false} ChainLast(q: seq<TCPDatagram>, end: nat, tight: bool, s: TCPDatagram)
    requires q != [] && Chain(q, end, tight) && Advance(Last(q)) > 0 && s in q && Advance(s) > 0
    ensures s == Last(q) || s.mSeq + Advance(s) <= Last(q).mSeq
    ensures Last(q).mSeq + Advance(Last(q)) == end
  {
    if |q| > 1 {
      assert Last(q[1..]) == Last(q) && Last(q) in q[1..];
      if s == q[0] {
        ChainLast(q[1..], end, tight, Last(q));
        ChainMonotone(q[1..], end, tight);
      } else {
        assert s in q[1..];
        ChainLast(q[1..], end, tight, s);
      }
    }
  }

  lemma {:induction false} ChainUpToLast(q: seq<TCPDatagram>, end: nat, tight: bool)
    requires q != [] && Chain(q, end, tight) && Advance(Last(q)) > 0
    ensures Last(q).mSeq + Advance(Last(q)) == end && forall s <- q :: s.mSeq <= Last(q).mSeq
  {
    if |q| > 1 {
      assert Last(q[1..]) == Last(q) && Last(q) in q[1..];
      ChainUpToLast(q[1..], end, tight);
      ChainMonotone(q[1..], end, tight);
      ChainMonotone(q, end, tight);
      assert forall s <- q :: s == q[0] || s in q[1..];
    }
  }

  /** Inside the last datagram there is no boundary. */
  lemma NoBoundaryInside(q: seq<TCPDatagram>, end: nat, tight: bool, next: nat)
    requires q != [] && Chain(q, end, tight) && Last(q).mSeq < next < end
    requires Advance(Last(q)) > 0
    ensures !Boundary(q, end, next)
  {
    forall s | s in q && Advance(s) > 0 ensures s.mSeq != next {
      ChainLast(q, end, tight, s);
    }
  }

  lemma {:induction false} StartPush(q: seq<TCPDatagram>, s: TCPDatagram, end: nat)
    requires Advance(s) > 0 ==> s.mSeq == end
    ensures Start(q + [s], end + Advance(s)) == Start(q, end)
  {
    if q == [] {
      assert (q + [s])[1..] == [];
    } else {
      assert (q + [s])[1..] == q[1..] + [s];
      StartPush(q[1..], s, end);
    }
  }

  lemma {:induction false} ChainPush(q: seq<TCPDatagram>, s: TCPDatagram, end: nat, tight: bool)
    requires Chain(q, end, tight)
    requires if tight || Advance(s) > 0 then s.mSeq == end else s.mSeq <= end
    ensures Chain(q + [s], end + Advance(s), tight)
  {
    if q == [] {
      assert (q + [s])[1..] == [];
    } else {
      assert (q + [s])[1..] == q[1..] + [s];
      ChainPush(q[1..], s, end, tight);
      StartPush(q[1..], s, end);
    }
  }

  /** `next` is where some datagram that occupies numbers starts, or where the queue ends. */
  ghost predicate Boundary(q: seq<TCPDatagram>, end: nat, next: nat) {
    next == end || exists s <- q :: Advance(s) > 0 && s.mSeq == next
  }

  lemma {:induction false} StartIsBoundary(q: seq<TCPDatagram>, end: nat)
    ensures Boundary(q, end, Start(q, end))
  {
    if q != [] {
      StartIsBoundary(q[1..], end);
      assert q[0] in q && forall s <- q[1..] :: s in q;
    }
  }

  /** Dropping a front that starts before `next`, or that occupies nothing, neither makes nor breaks a boundary. */
  lemma BoundaryAfterPop(q: seq<TCPDatagram>, end: nat, next: nat)
    requires q != [] && (q[0].mSeq < next || Advance(q[0]) == 0)
    ensures Boundary(q[1..], end, next) <==> Boundary(q, end, next)
  {
    assert forall s <- q :: s == q[0] || s in q[1..];
    assert forall s <- q[1..] :: s in q;
  }

  /**
   * A boundary stays one when a datagram is put at the end; a pure acknowledgement makes none either, and no push does
   * up to the end there was.
   */
  lemma BoundaryAfterPush(q: seq<TCPDatagram>, s: TCPDatagram, end: nat, next: nat)
    requires Advance(s) > 0 ==> s.mSeq == end
    ensures Boundary(q, end, next) ==> Boundary(q + [s], end + Advance(s), next)
    ensures Advance(s) == 0 ==> (Boundary(q + [s], end, next) <==> Boundary(q, end, next))
    ensures next <= end ==> (Boundary(q + [s], end + Advance(s), next) <==> Boundary(q, end, next))
  {
    assert (q + [s])[|q|] == s;
    assert forall t <- q :: t in q + [s];
    assert forall t <- q + [s] :: t in q || t == s;
  }

  /** With no front before `next`, what is queued starts at `next` exactly when that is a boundary. */
  lemma BoundaryAtFront(q: seq<TCPDatagram>, end: nat, tight: bool, next: nat)
    requires Chain(q, end, tight)
    requires q != [] ==> q[0].mSeq >= next
    ensures Start(q, end) == next <==> Boundary(q, end, next)
  {
    ChainMonotone(q, end, tight);
    StartIsBoundary(q, end);
  }

  /** The payload at the end of a datagram's packet. */
  function Payload(s: TCPDatagram): seq<byte>
    requires s.mLength <= |s.packet|
  {
    s.packet[|s.packet| - s.mLength..]
  }

  /** What `accept` reads in a packet of the peer's, numbers as they are in the header. */
  datatype Incoming = Incoming(
    seqNo: nat, ackNo: nat, syn: bool, fin: bool, rst: bool, flag: byte, window: word, windowScale: byte,
    payload: seq<byte>
  )

  /** What the reactor brings a session. */
  datatype Event =
    | FromPeer(p: Incoming)
    | TunnelData(data: seq<byte>)
    | TunnelWritable
    | TunnelClosed
    | TunnelFailed
  {
    /** Header numbers have 32 bits. */
    predicate Legal() {
      FromPeer? ==> p.seqNo < 0x1_0000_0000 && p.ackNo < 0x1_0000_0000
    }
  }

  /** What the tunnel delivered during a run. */
  function FromTunnel(script: seq<Event>): seq<byte> {
    if script == [] then []
    else FromTunnel(script[..|script| - 1]) + match script[|script| - 1] case TunnelData(data) => data case _ => []
  }

  lemma FromTunnelNext(script: seq<Event>, e: Event)
    ensures FromTunnel(script + [e]) == FromTunnel(script) + if e.TunnelData? then e.data else []
  {
    assert (script + [e])[..|script|] == script;
  }

  /** The state a packet leads to, whether the tunnel was read and written to, and how often there was disorder. */
  datatype Tuning = Tuning(state: TcpState, reading: bool, writing: bool, disorder: nat)

  /** How many of `n` octets, cut into slices of 61440, the last slice has. */
  function LastSlice(n: nat): (m: nat)
    ensures n > 0 ==> 1 <= m <= 61440 && m <= n && (n - m) % 61440 == 0
  {
    if n % 61440 == 0 && n > 0 then 61440 else n % 61440
  }

  lemma NextSlice(i: nat, l: nat)
    requires i % 61440 == 0 && 0 < l <= 61440
    ensures LastSlice(i + l) == l && (l == 61440 ==> (i + l) % 61440 == 0)
  {
  }

  /** Where the back path stands before some tunnel data. */
  datatype Standing =
    Standing(state: TcpState, clean: bool, whole: bool, refused: bool, fins: nat, disorder: nat, reading: bool)

  /** Where the streams and the peer's numbers stand. */
  datatype Marks = Marks(stream: seq<byte>, read: seq<byte>, accepted: seq<byte>, taken: seq<byte>, base: nat)

  /** A payload of the peer's lies in its application's stream where its sequence number says. */
  ghost predicate Slice(e: Event, base: nat, app: seq<byte>)
  {
    base < 0x1_0000_0000 && e.Legal() && e.FromPeer? && e.p.payload != [] ==>
      var seqNo := RelativeSeq(e.p.seqNo, base);
      && 1 <= seqNo && seqNo - 1 + |e.p.payload| <= |app|
      && e.p.payload == app[seqNo - 1..seqNo - 1 + |e.p.payload|]
  }

  /** `window << scale` in 32 bits. */
  function Scaled(window: nat, scale: nat): nat
    decreases scale
  {
    if scale == 0 then window % 0x1_0000_0000 else Scaled(2 * window, scale - 1)
  }

  function Pow2(n: nat): nat {
    if n == 0 then 1 else 2 * Pow2(n - 1)
  }

  lemma {:induction false} ScaledIs(window: nat, scale: nat)
    ensures Scaled(window, scale) == window * Pow2(scale) % 0x1_0000_0000
    decreases scale
  {
    if scale > 0 {
      ScaledIs(2 * window, scale - 1);
      assert 2 * window * Pow2(scale - 1) == window * Pow2(scale);
    }
  }

  /** `w >> scale` */
  function ShiftedRight(w: nat, scale: nat): nat
    decreases scale
  {
    if scale == 0 then w else ShiftedRight(w / 2, scale - 1)
  }

  /** The largest field whose window is at most `w`. */
  lemma {:induction false} ShiftedBounds(w: nat, scale: nat)
    ensures var q := ShiftedRight(w, scale); q * Pow2(scale) <= w < (q + 1) * Pow2(scale)
    decreases scale
  {
    if scale > 0 {
      ShiftedBounds(w / 2, scale - 1);
      TwiceWithin(ShiftedRight(w / 2, scale - 1), Pow2(scale - 1), w / 2, w);
    }
  }

  lemma TwiceWithin(q: nat, p: nat, half: nat, w: nat)
    requires q * p <= half < (q + 1) * p && 2 * half <= w <= 2 * half + 1
    ensures q * (2 * p) <= w < (q + 1) * (2 * p)
  {
    var a, b := q * p, (q + 1) * p;
    assert q * (2 * p) == 2 * a && (q + 1) * (2 * p) == 2 * b;
  }

  lemma TimesMore(a: nat, b: nat, p: nat)
    requires a <= b
    ensures a * p <= b * p
  {
  }

  /** A window field promises as much as it can of what is left of `size` over `queued`, and never more. */
  ghost predicate Promised(field: nat, scale: nat, queued: nat, size: nat) {
    && (field > 0 ==> field * Pow2(scale) + queued <= size)
    && size < (field + 1) * Pow2(scale) + queued
  }

  lemma FieldPromised(w: nat, scale: nat, queued: nat, size: nat)
    requires if w > 0 then w + queued == size else queued >= size
    requires w <= Scaled(0xFFFF, scale)
    ensures ShiftedRight(w, scale) <= 0xFFFF && Promised(ShiftedRight(w, scale), scale, queued, size)
  {
    ScaledIs(0xFFFF, scale);
    Pow2Positive(scale);
    ShiftedBounds(w, scale);
    var p, q := Pow2(scale), ShiftedRight(w, scale);
    assert 0xFFFF * p % 0x1_0000_0000 <= 0xFFFF * p;
    if q > 0xFFFF {
      TimesMore(0x1_0000, q, p);
    }
    if w == 0 && q > 0 {
      TimesMore(1, q, p);
    }
  }

  lemma {:induction false} Pow2Positive(n: nat)
    ensures Pow2(n) > 0
  {
    if n > 0 {
      Pow2Positive(n - 1);
    }
  }

  /** A queued payload of the peer's: its relative number, its flags, and the octets the tunnel has not taken. */
  datatype Pending = Pending(seqNo: nat, flag: byte, data: seq<byte>)

  function DataSum(q: seq<Pending>): nat {
    if q == [] then 0 else |q[0].data| + DataSum(q[1..])
  }

  /** The octets of a forward queue in order. */
  function Flatten(q: seq<Pending>): seq<byte> {
    if q == [] then [] else q[0].data + Flatten(q[1..])
  }

  ghost predicate Sorted(q: seq<Pending>) {
    forall i, j :: 0 <= i < j < |q| ==> q[i].seqNo < q[j].seqNo
  }

  /** `findNotSmaller`: the first that is not smaller, or the end. */
  method FindNotSmaller(q: seq<Pending>, seqNo: nat) returns (i: nat)
    requires Sorted(q)
    ensures i <= |q|
    ensures forall j :: 0 <= j < |q| ==> (j < i <==> q[j].seqNo < seqNo)
  {
    i := 0;
    while i < |q|
      invariant i <= |q|
      invariant forall j :: 0 <= j < i ==> q[j].seqNo < seqNo
    {
      if seqNo <= q[i].seqNo {
        return;
      }
      i := i + 1;
    }
  }

  /** Inserting there keeps a queue strictly sorted, unless the number is queued already. */
  lemma SortedInsert(q: seq<Pending>, i: nat, p: Pending)
    requires Sorted(q) && i <= |q|
    requires forall j :: 0 <= j < |q| ==> (j < i <==> q[j].seqNo < p.seqNo)
    requires i < |q| ==> q[i].seqNo != p.seqNo
    ensures Sorted(q[..i] + [p] + q[i..])
  {
    var r := q[..i] + [p] + q[i..];
    forall j, k | 0 <= j < k < |r| ensures r[j].seqNo < r[k].seqNo {
      if j > i {
        assert r[j] == q[j - 1] && r[k] == q[k - 1];
      } else if j == i && k > i {
        assert r[k] == q[k - 1] && q[i].seqNo <= q[k - 1].seqNo;
      }
    }
  }

  /** A forward queue after the tunnel took `n` octets of its front. */
  function Consumed(q: seq<Pending>, n: nat): seq<Pending>
    requires q != [] && n <= |q[0].data|
  {
    if n == |q[0].data| then q[1..] else [q[0].(data := q[0].data[n..])] + q[1..]
  }

  lemma ConsumedOctets(q: seq<Pending>, n: nat)
    requires q != [] && n <= |q[0].data|
    ensures DataSum(Consumed(q, n)) == DataSum(q) - n
    ensures q[0].data[..n] + Flatten(Consumed(q, n)) == Flatten(q)
  {
    var d, r, rest := q[0].data, Consumed(q, n), Flatten(q[1..]);
    if n < |d| {
      assert r[1..] == q[1..];
      calc {
        d[..n] + Flatten(r);
        { assert Flatten(r) == d[n..] + rest; }
        d[..n] + (d[n..] + rest);
        (d[..n] + d[n..]) + rest;
        { assert d[..n] + d[n..] == d; }
        d + rest;
      }
    } else {
      assert d[..n] == d;
    }
  }

  lemma ConsumedOrder(q: seq<Pending>, n: nat)
    requires Sorted(q) && q != [] && n <= |q[0].data|
    ensures Sorted(Consumed(q, n))
    ensures forall next: nat :: Below(q, next) ==> Below(Consumed(q, n), next)
  {
    var r := Consumed(q, n);
    var k := |q| - |r|;
    assert forall i :: 0 <= i < |r| ==> r[i].seqNo == q[i + k].seqNo;
    forall next: nat | Below(q, next) ensures Below(r, next) {
      forall p <- r ensures p.seqNo < next {
        var i :| 0 <= i < |r| && r[i] == p;
        assert q[i + k] in q;
      }
    }
  }

  /** Every queued number lies before `next`. */
  ghost predicate Below(q: seq<Pending>, next: nat) {
    forall p <- q :: p.seqNo < next
  }

  lemma {:induction false} ForwardInsert(q: seq<Pending>, i: nat, p: Pending)
    requires i <= |q|
    ensures DataSum(q[..i] + [p] + q[i..]) == DataSum(q) + |p.data|
    ensures i == |q| ==> Flatten(q[..i] + [p] + q[i..]) == Flatten(q) + p.data
  {
    var r := q[..i] + [p] + q[i..];
    if i == 0 {
      assert r[1..] == q;
      if q == [] {
        assert Flatten(r) == p.data + Flatten([]);
      }
    } else {
      assert r[1..] == q[1..][..i - 1] + [p] + q[1..][i - 1..];
      ForwardInsert(q[1..], i - 1, p);
    }
  }

  /**
   * What `buildPackage` guarantees of a datagram of a session, whose initial number is `base`, and its peer's `peer`.
   */
  ghost predicate Built(s: TCPDatagram, base: nat, peer: nat) {
    && |s.packet| == 40 + (if HasFlag(s.mFlag, SYN) then 10 else 0) + s.mLength <= 0xFFFF
    && HoldsTransport(s.packet, 20)
    && ReceiverAccepts(s.packet)
    && SeqField(s.packet) == Net32(s.mSeq + base) && AckField(s.packet) == Net32(s.mAck + peer)
    && s.packet[33] == s.mFlag
  }

  /** A payload of n octets at relative number q is octets q-1 up to q-1+n of the stream. */
  ghost predicate Carries(s: TCPDatagram, stream: seq<byte>) {
    s.mLength > 0 ==>
      && s.mLength <= |s.packet|
      && 1 <= s.mSeq && s.mSeq - 1 + s.mLength <= |stream|
      && Payload(s) == stream[s.mSeq - 1..s.mSeq - 1 + s.mLength]
  }

  ghost predicate AllBuilt(q: seq<TCPDatagram>, base: nat, peer: nat) {
    forall s <- q :: Built(s, base, peer)
  }

  lemma AllBuiltPush(q: seq<TCPDatagram>, s: TCPDatagram, base: nat, peer: nat)
    requires Distinct(q) && s !in q && AllBuilt(q, base, peer) && Built(s, base, peer)
    ensures Distinct(q + [s]) && AllBuilt(q + [s], base, peer)
  {
    hide Built;
  }

  lemma AllBuiltMore(q: seq<TCPDatagram>, s: TCPDatagram, base: nat, peer: nat)
    requires AllBuilt(q, base, peer) && Built(s, base, peer)
    ensures AllBuilt(q + [s], base, peer)
  {
    hide Built;
  }

  ghost predicate AllCarry(q: set<TCPDatagram>, stream: seq<byte>) {
    forall s <- q :: Carries(s, stream)
  }

  lemma AllCarryMore(q: set<TCPDatagram>, stream: seq<byte>, more: seq<byte>)
    requires AllCarry(q, stream)
    ensures AllCarry(q, stream + more)
  {
    forall s <- q ensures Carries(s, stream + more) {
      if s.mLength > 0 {
        assert (stream + more)[s.mSeq - 1..s.mSeq - 1 + s.mLength] == stream[s.mSeq - 1..s.mSeq - 1 + s.mLength];
      }
    }
  }

  ghost predicate AllIn(q: seq<TCPDatagram>, all: set<TCPDatagram>) {
    forall s <- q :: s in all
  }

  lemma AllInMore(q: seq<TCPDatagram>, all: set<TCPDatagram>, s: TCPDatagram)
    requires AllIn(q, all)
    ensures AllIn(q, all + {s}) && AllIn(q + [s], all + {s})
  {
  }

  /**
   * What was added to the Router's queue is what was handed over since, all of it by `owner`, and but for an RST all of
   * it smaller than `limit`.
   */
  ghost predicate HandedOver(was: seq<TCPDatagram>, before: seq<TCPDatagram>, q: seq<TCPDatagram>,
                             handed: seq<TCPDatagram>, owner: object, limit: nat) {
    && before <= handed && q == was + handed[|before|..]
    && forall i :: |before| <= i < |handed| ==>
      handed[i].owner == owner && (|handed[i].packet| < limit || handed[i].mFlag == RST + ACK)
  }

  lemma HandedKeeps(was: seq<TCPDatagram>, before: seq<TCPDatagram>, q: seq<TCPDatagram>, handed: seq<TCPDatagram>,
                    owner: object, limit: nat)
    requires HandedOver(was, before, q, handed, owner, limit)
    ensures was <= q && before <= handed
  {
  }

  lemma NothingHanded(q: seq<TCPDatagram>, handed: seq<TCPDatagram>, owner: object, limit: nat)
    ensures HandedOver(q, handed, q, handed, owner, limit)
  {
  }

  lemma OneHanded(q: seq<TCPDatagram>, handed: seq<TCPDatagram>, s: TCPDatagram, limit: nat)
    requires |s.packet| < limit || s.mFlag == RST + ACK
    ensures HandedOver(q, handed, q + [s], handed + [s], s.owner, limit)
  {
  }

  /** One owner's part of everything queued grows by what it handed over, and everyone else's stays. */
  lemma HandedPart(frames: seq<TCPDatagram>, was: seq<TCPDatagram>, before: seq<TCPDatagram>, q: seq<TCPDatagram>,
                   handed: seq<TCPDatagram>, owner: object, limit: nat, other: object)
    requires HandedOver(was, before, q, handed, owner, limit)
    ensures other == owner && Of(frames + was, other) == before ==> Of(frames + q, other) == handed
    ensures other != owner ==> Of(frames + q, other) == Of(frames + was, other)
  {
    hide Of;
    var more := handed[|before|..];
    assert frames + q == (frames + was) + more && before + more == handed;
    OfMore(frames + was, more, other);
    OfOne(more, owner, other);
  }

  lemma HandedOn(q: seq<TCPDatagram>, handed: seq<TCPDatagram>, q': seq<TCPDatagram>, handed': seq<TCPDatagram>,
                 q'': seq<TCPDatagram>, handed'': seq<TCPDatagram>, owner: object, limit: nat, limit': nat)
    requires HandedOver(q, handed, q', handed', owner, limit') && HandedOver(q', handed', q'', handed'', owner, limit)
    requires limit <= limit'
    ensures HandedOver(q, handed, q'', handed'', owner, limit')
  {
    assert handed''[|handed|..] == handed'[|handed|..] + handed''[|handed'|..];
  }

  /** A gap-free chain that ends after everything pushed. */
  ghost predicate Gapless(q: seq<TCPDatagram>, end: nat, syns: nat, stream: seq<byte>, fins: nat) {
    Chain(q, end, true) && end == syns + |stream| + fins
  }

  /** Payload pushed after the one SYN and before any FIN keeps the chain gap-free and is where the stream has it. */
  lemma GaplessPush(q: seq<TCPDatagram>, end: nat, syns: nat, stream: seq<byte>, fins: nat,
                    s: TCPDatagram, data: seq<byte>)
    requires Gapless(q, end, syns, stream, fins)
    requires s.mSeq == end && s.mLength == |data| <= |s.packet| && Payload(s) == data
    requires s.mFlag in {ACK, SYN + ACK, FIN + ACK}
    requires data != [] ==> s.mFlag == ACK && syns == 1 && fins == 0
    ensures Gapless(q + [s], end + Advance(s), syns + (if s.mFlag == SYN + ACK then 1 else 0), stream + data,
                    fins + if s.mFlag == FIN + ACK then 1 else 0)
    ensures Carries(s, stream + data)
  {
    hide Chain;
    ChainPush(q, s, end, true);
    assert (stream + data)[|stream|..] == data;
  }

  lemma PayloadLast(e: Endpoints, f: Fields, data: seq<byte>)
    ensures var s := Segment(e, f, data); |s| >= |data| && s[|s| - |data|..] == data
  {
    hide TcpHeader, Options;
  }

  /** A datagram whose packet is built from the given fields. */
  method MakeDatagram(e: Endpoints, f: Fields, data: seq<byte>, seqNo: nat, ack: nat, ghost base: nat,
                      ghost peer: nat, ghost owner: object)
    returns (s: TCPDatagram)
    requires |data| <= TCP_IP_PAYLOAD_SIZE && seqNo + base == f.seqNo && ack + peer == f.ackNo
    ensures fresh(s) && s.Whole() && s.mRetry == 0 && s.owner == owner
    ensures !s.mBuffering && !s.mReleaseAfterBuffering && !s.mAbort && !s.freed
    ensures s.mSeq == seqNo && s.mAck == ack && s.mFlag == f.flag && s.mLength == |data|
    ensures Built(s, base, peer) && s.packet != [] && |s.packet| >= |data| && Payload(s) == data
    ensures s.packet == Packet(e, f, data) && |s.packet| == 40 + |data| + if f.flag / 2 % 2 == 1 then 10 else 0
  {
    hide Packet, Segment, IpHeader, ReceiverAccepts, SeqField, AckField, GetPayloadLen;
    var buffer := new byte[|data|](i requires 0 <= i < |data| => data[i]);
    assert buffer[0..|data|] == data;
    var p := Packets.BuildPackage(e, f, buffer, 0, |data|);
    var ip := p[..];
    PacketLayout(e, f, data);
    PacketAccepted(e, f, data);
    AccessorsReadBack(e, f, data);
    HeaderOctets(e, f, data);
    assert ip[|ip| - |data|..] == ip[20..][|ip| - 20 - |data|..];
    PayloadLast(e, f, data);
    s := new TCPDatagram(ip, seqNo, ack, f.flag, |data|, owner);
  }

  /** The direct tunnel to the remote host, as the reactor sees it. */
  class TCPTunnel {
    var mOpen: bool
    var mReading: bool
    var mWriting: bool

    constructor ()
      ensures mOpen && mReading && mWriting
    {
      mOpen, mReading, mWriting := true, true, true;
    }

    method PauseReceiveData()
      modifies this`mReading
      ensures mReading == (old(mReading) && !mOpen)
    {
      if mOpen {
        mReading := false;
      }
    }

    method ResumeReceiveData()
      modifies this`mReading
      ensures mReading == (old(mReading) || mOpen)
    {
      if mOpen {
        mReading := true;
      }
    }

    method PauseSendData()
      modifies this`mWriting
      ensures mWriting == (old(mWriting) && !mOpen)
    {
      if mOpen {
        mWriting := false;
      }
    }

    /** What the tunnel has room for. */
    method GetAvailableBufferSize() returns (n: nat)
      ensures n < 0x1_0000_0000
    {
      n :| n < 0x1_0000_0000;
    }

    method RequestSendData()
      modifies this`mWriting
      ensures mWriting == (old(mWriting) || mOpen)
    {
      if mOpen {
        mWriting := true;
      }
    }

    method DestroyTunnel()
      modifies this
      ensures !mOpen && !mReading && !mWriting
    {
      mOpen, mReading, mWriting := false, false, false;
    }

    /** `send` on the socket takes some of the octets offered; an error destroys the tunnel. */
    method SendData(len: nat) returns (s: int)
      modifies this
      ensures s <= len && (mReading ==> old(mReading)) && (mOpen ==> old(mOpen))
      ensures if s < 0 then old(mOpen) && !mOpen && !mReading else unchanged(this)
    {
      s := 0;
      if mOpen {
        s :| s <= len;
        if s < 0 {
          DestroyTunnel();
        }
      }
    }
  }

  /** The ghost record of a session's back path. */
  class History {
    /** The tunnel's octets that were pushed, and the SYNs and FINs pushed. */
    ghost var mStream: seq<byte>
    ghost var mSyns: nat
    ghost var mFins: nat
    /** No reset has been sent and no payload followed a FIN. */
    ghost var mClean: bool
    /**
     * Where the last datagram queued ends, which a reset does not take back, and whether nothing was queued
     * elsewhere.
     */
    ghost var mEnd: nat
    ghost var mChained: bool
    /** How often the disorder branch was taken. */
    ghost var mDisorder: nat
    /** The datagrams queued while clean, and those handed to the Router in order. */
    ghost var mCarrying: set<TCPDatagram>
    ghost var mHanded: seq<TCPDatagram>

    ghost constructor ()
      ensures mStream == [] && mSyns == mFins == mEnd == mDisorder == 0 && mClean && mChained
      ensures mCarrying == {} && mHanded == []
    {
      mStream, mSyns, mFins, mClean, mEnd, mChained := [], 0, 0, true, 0, true;
      mDisorder, mCarrying, mHanded := 0, {}, [];
    }

    /** An unbroken chain in which only a reset leaves the next number before the end; clean, one without gaps. */
    ghost predicate Linked(q: seq<TCPDatagram>, localSeq: nat)
      reads this`mStream, this`mSyns, this`mFins, this`mClean, this`mEnd, this`mChained
    {
      && (mChained ==> Chain(q, mEnd, false) && localSeq <= mEnd)
      && (mClean ==> mChained && localSeq == mEnd && Gapless(q, mEnd, mSyns, mStream, mFins))
    }

    /** A datagram put at the end of the queue. */
    ghost method Push(q: seq<TCPDatagram>, s: TCPDatagram, payload: seq<byte>)
      requires Linked(q, s.mSeq)
      requires s.mLength == |payload| <= |s.packet| && Payload(s) == payload
      requires s.mFlag in {ACK, SYN + ACK, FIN + ACK} && (payload != [] ==> s.mFlag == ACK)
      modifies this`mStream, this`mSyns, this`mFins, this`mClean, this`mEnd, this`mChained
      ensures Linked(q + [s], s.mSeq + Advance(s)) && (mClean ==> Carries(s, mStream))
      ensures mStream == old(mStream) + payload && mEnd == old(mEnd) + Advance(s)
      ensures mChained == (old(mChained) && (Advance(s) > 0 ==> s.mSeq == old(mEnd)))
      ensures mSyns == old(mSyns) + (if s.mFlag == SYN + ACK then 1 else 0)
      ensures mFins == old(mFins) + (if s.mFlag == FIN + ACK then 1 else 0)
      ensures mClean == (old(mClean) && (payload != [] ==> old(mSyns) == 1 && old(mFins) == 0))
    {
      hide Advance, HasFlag, Payload, Carries, Chain;
      if mChained && (Advance(s) > 0 ==> s.mSeq == mEnd) {
        ChainPush(q, s, mEnd, false);
      }
      if mClean && (payload != [] ==> mSyns == 1 && mFins == 0) {
        GaplessPush(q, mEnd, mSyns, mStream, mFins, s, payload);
      }
      mClean := mClean && (payload != [] ==> mSyns == 1 && mFins == 0);
      mChained := mChained && (Advance(s) > 0 ==> s.mSeq == mEnd);
      mEnd := mEnd + Advance(s);
      mStream := mStream + payload;
      mSyns := mSyns + if s.mFlag == SYN + ACK then 1 else 0;
      mFins := mFins + if s.mFlag == FIN + ACK then 1 else 0;
    }

    /** A datagram queued while clean carries its part of the stream. */
    ghost method Carry(q: seq<TCPDatagram>, s: TCPDatagram, was: seq<byte>, payload: seq<byte>)
      requires AllCarry(mCarrying, was) && mStream == was + payload && (mClean ==> Carries(s, mStream))
      requires mClean ==> AllIn(q, mCarrying) && AllIn(mHanded, mCarrying)
      modifies this`mCarrying
      ensures AllCarry(mCarrying, mStream) && mCarrying == old(mCarrying) + if mClean then {s} else {}
      ensures mClean ==> AllIn(q + [s], mCarrying) && AllIn(mHanded, mCarrying)
    {
      hide Carries, AllIn;
      AllCarryMore(mCarrying, was, payload);
      if mClean {
        AllInMore(q, mCarrying, s);
        AllInMore(mHanded, mCarrying, s);
        mCarrying := mCarrying + {s};
      }
    }
  }

  /** A left edge at `next` acknowledges a datagram, or it is a pure acknowledgement already sent. */
  predicate Done(s: TCPDatagram, next: nat)
    reads s`mRetry
  {
    s.mSeq < next || (s.mLength <= 0 && s.mFlag == ACK && s.mRetry > 0)
  }

  /** Let go of by its session while the Router still has it: the Router drops it, or writes it if it is an RST. */
  ghost predicate Leaving(s: TCPDatagram, q: seq<TCPDatagram>)
    reads s`mReleaseAfterBuffering, s`mAbort
  {
    s.mReleaseAfterBuffering && s in q && (s.mAbort || s.mFlag == RST + ACK)
  }

  class TCPSession {
    const router: Router
    const mTunnel: TCPTunnel
    const ends: Endpoints
    var mState: TcpState
    var mAlive: bool
    var mRemoteFinished: bool
    var mLocalSeqBase: nat
    var mRemoteSeqBase: nat
    var mLocalSeq: nat
    var mLocalNext: nat
    var mRemoteNext: nat
    var mSendWindow: nat
    var mWindowScale: byte
    var mBackQueue: seq<TCPDatagram>
    var mBackQueueDataSize: nat
    var mTotalBack: nat
    var mTotalRecv: nat

    /** What the peer's application sent, waiting for the tunnel. */
    var mForwardQueue: seq<Pending>
    var mForwardQueueDataSize: nat

    /** Everything the tunnel delivered. */
    ghost var mReadOff: seq<byte>
    /** What the tunnel answered to every offer of the forward queue. */
    ghost var mAnswers: seq<int>
    /** The peer's octets in the order accepted, and those the tunnel took. */
    ghost var mAccepted: seq<byte>
    ghost var mTaken: seq<byte>
    /** No FIN so far, and no payload ahead of the next expected number. */
    ghost var mFresh: bool
    /** No payload was queued except while fresh. */
    ghost var mOrdered: bool
    /** Acknowledgements kept to boundaries, and no data came from the tunnel after it was gone. */
    ghost var mPeerOk: bool
    /** The tunnel said that it is disconnected or has no more data. */
    ghost var mGone: bool
    /** Tunnel data came in reads of at most 61440 octets, each while the tunnel was read. */
    ghost var mDirect: bool

    /** What has been pushed and handed over. */
    ghost const history: History
    /** Every datagram built to be sent back. */
    ghost var mMine: set<TCPDatagram>

    /** The back queue and its size. */
    ghost predicate Queued()
      reads this`mBackQueue, this`mBackQueueDataSize, this`mLocalSeqBase, this`mRemoteSeqBase, mBackQueue
    {
      && Distinct(mBackQueue)
      && (forall s <- mBackQueue :: !s.freed && !s.mAbort && !s.mReleaseAfterBuffering)
      && mBackQueueDataSize == CapacitySum(mBackQueue)
      && AllBuilt(mBackQueue, mLocalSeqBase, mRemoteSeqBase)
    }

    /** What the queue and the record say of each other. */
    ghost predicate Recorded()
      reads this`mBackQueue, this`mTotalBack, this`mLocalSeq, this`mLocalSeqBase, this`mRemoteSeqBase
      reads history`mStream, history`mSyns, history`mFins, history`mClean, history`mEnd, history`mChained
      reads history`mCarrying, history`mHanded
    {
      && |history.mStream| == mTotalBack + PayloadSum(mBackQueue)
      && history.Linked(mBackQueue, mLocalSeq)
      && AllBuilt(history.mHanded, mLocalSeqBase, mRemoteSeqBase) && AllCarry(history.mCarrying, history.mStream)
      && (history.mClean ==> AllIn(mBackQueue, history.mCarrying) && AllIn(history.mHanded, history.mCarrying))
    }

    /** The back queue, its counters and what its datagrams carry. */
    ghost predicate Back()
      reads this`mBackQueue, this`mBackQueueDataSize, this`mTotalBack, this`mLocalSeq, this`mLocalSeqBase
      reads this`mRemoteSeqBase
      reads history`mStream, history`mSyns, history`mFins, history`mClean, history`mEnd, history`mChained
      reads history`mCarrying, history`mHanded, mBackQueue
    {
      Queued() && Recorded()
    }

    /** Who holds this session's datagrams; one that was handed over has been tried. */
    ghost predicate Owned()
      reads this`mBackQueue, this`mMine, router`born, router`mData, mMine
    {
      && (forall s <- mBackQueue :: s in mMine)
      && (forall s <- mMine :: s in router.born && s.owner == this)
      && (forall s <- mMine | !s.freed :: s in mBackQueue || Leaving(s, router.mData))
      && (forall s <- mMine | !s.freed && s.mBuffering :: 0 < s.mRetry)
    }

    /** As `Owned` with `q` for the back queue, but for `x`, which is new. */
    ghost predicate OwnedBut(x: TCPDatagram, q: seq<TCPDatagram>)
      reads this`mMine, router`born, router`mData, mMine - {x}
    {
      && (forall s <- q :: s in mMine)
      && (forall s <- mMine :: s in router.born && s.owner == this)
      && (forall s <- mMine | s != x && !s.freed :: s in q || Leaving(s, router.mData))
      && (forall s <- mMine | s != x && !s.freed && s.mBuffering :: 0 < s.mRetry)
    }

    lemma OwnedQueued(x: TCPDatagram, q: seq<TCPDatagram>)
      requires OwnedBut(x, q) && x in mMine && mBackQueue == q + [x] && (x.mBuffering ==> 0 < x.mRetry)
      ensures Owned()
    {
    }

    /** What holds between any two steps. */
    ghost predicate Sane()
      reads this`mBackQueue, this`mBackQueueDataSize, this`mTotalBack, this`mLocalSeq, this`mLocalSeqBase
      reads this`mRemoteSeqBase,
            history`mStream, history`mSyns, history`mFins, history`mClean, history`mEnd, history`mChained,
            history`mCarrying, history`mHanded,
            this`mMine, mBackQueue, mMine,
            router`born, router`mData, router`tun, router`frames, router.born, router.mData
    {
      Back() && Owned() && router.Valid()
    }

    /** The front of the queue may be dropped. */
    predicate Poppable(s: TCPDatagram)
      reads this`mLocalNext, s`mRetry
    {
      Done(s, mLocalNext)
    }

    /** Something stays queued when the left edge is `next`. */
    ghost predicate Remains(next: nat)
      reads this`mBackQueue, mBackQueue
    {
      exists s <- mBackQueue :: !Done(s, next)
    }

    ghost predicate HasStuck()
      reads this`mLocalNext, this`mBackQueue, mBackQueue
    {
      exists s <- mBackQueue :: !Poppable(s)
    }

    /** The left edge is where some queued datagram starts, or at the end of them all. */
    ghost predicate AtBoundary()
      reads this`mLocalNext, history`mEnd, this`mBackQueue
    {
      Boundary(mBackQueue, history.mEnd, mLocalNext)
    }

    /** Nothing queued lies before the left edge, and nothing is missing after it. */
    ghost predicate InOrder()
      reads this`mLocalNext, history`mEnd, this`mBackQueue
    {
      Start(mBackQueue, history.mEnd) == mLocalNext
    }

    /** `init` on the SYN that creates the session: the tunnel is being established. */
    constructor (router: Router, ends: Endpoints)
      ensures this.router == router && this.ends == ends && fresh(mTunnel) && fresh(history) && New()
    {
      this.router, this.ends := router, ends;
      mTunnel := new TCPTunnel();
      mState, mAlive, mRemoteFinished := LISTEN, true, false;
      mLocalSeqBase, mRemoteSeqBase, mLocalSeq, mLocalNext, mRemoteNext := 0, 0, 0, 0, 0;
      mSendWindow, mWindowScale := 0, 0;
      mBackQueue, mBackQueueDataSize, mTotalBack, mTotalRecv := [], 0, 0, 0;
      mForwardQueue, mForwardQueueDataSize := [], 0;
      mAccepted, mTaken, mFresh, mOrdered, mPeerOk, mDirect, mGone := [], [], true, true, true, true, false;
      mReadOff, mMine, mAnswers := [], {}, [];
      history := new History();
    }

    method SafeReleaseSegment(segment: TCPDatagram)
      requires router.Valid() && segment in router.born && !segment.freed
      modifies segment`mAbort, segment`mReleaseAfterBuffering, segment`freed
      ensures router.Valid()
      ensures if segment.mBuffering then !segment.freed && segment.mAbort && Leaving(segment, router.mData)
        else segment.freed && segment.mAbort == old(segment.mAbort)
    {
      if segment.mBuffering {
        assert segment in router.mData;
        segment.mAbort := true;
        segment.mReleaseAfterBuffering := true;
      } else {
        segment.Delete();
      }
    }

    /** Takes the front off the queue, acknowledged or already sent. */
    method TakeFront() returns (segment: TCPDatagram)
      requires Back() && mBackQueue != [] && Poppable(mBackQueue[0])
      modifies this`mBackQueue, this`mBackQueueDataSize, this`mTotalBack
      ensures Back() && segment == old(mBackQueue)[0] && mBackQueue == old(mBackQueue)[1..] && segment !in mBackQueue
      ensures AtBoundary() <==> old(AtBoundary())
      ensures old(HasStuck()) <==> HasStuck()
      ensures DataCapacity(mBackQueue) <= old(DataCapacity(mBackQueue))
      ensures mBackQueueDataSize <= old(mBackQueueDataSize)
    {
      hide Built, Carries, Start, Boundary, TCPSession.Poppable;
      segment := mBackQueue[0];
      BoundaryStays();
      if HasStuck() {
        StuckAfterPop();
      }
      mBackQueue := mBackQueue[1..];
      mTotalBack := mTotalBack + segment.mLength;
      mBackQueueDataSize := mBackQueueDataSize - |segment.packet|;
    }

    /** Drops the front of the queue. */
    method PopFront(ghost front: TCPDatagram)
      requires Sane() && mBackQueue != [] && front == mBackQueue[0] && Poppable(front)
      modifies this`mBackQueue, this`mBackQueueDataSize, this`mTotalBack
      modifies front`mAbort, front`mReleaseAfterBuffering, front`freed
      ensures Sane() && mBackQueue == old(mBackQueue)[1..]
      ensures AtBoundary() <==> old(AtBoundary())
      ensures old(HasStuck()) <==> HasStuck()
      ensures DataCapacity(mBackQueue) <= old(DataCapacity(mBackQueue))
      ensures mBackQueueDataSize <= old(mBackQueueDataSize)
    {
      hide TCPSession.Back, TCPSession.AtBoundary, TCPSession.Poppable, DataCapacity, Router.Valid;
      QueuedIsSound(front);
      var segment := TakeFront();
      SafeReleaseSegment(segment);
    }

    lemma BoundaryStays()
      requires mBackQueue != [] && Poppable(mBackQueue[0])
      ensures Boundary(mBackQueue[1..], history.mEnd, mLocalNext) <==> AtBoundary()
    {
      BoundaryAfterPop(mBackQueue, history.mEnd, mLocalNext);
    }

    lemma StuckAfterPop()
      requires mBackQueue != [] && Poppable(mBackQueue[0]) && HasStuck()
      ensures exists s <- mBackQueue[1..] :: !Poppable(s)
    {
      var s :| s in mBackQueue && !Poppable(s);
      assert s in mBackQueue[1..];
    }

    /** With nothing to drop, the queue is in order exactly when the left edge is a boundary. */
    lemma InOrderExactly()
      requires Sane() && (mBackQueue == [] || !Poppable(mBackQueue[0]))
      ensures history.mChained ==> (InOrder() <==> AtBoundary())
    {
      if history.mChained {
        BoundaryAtFront(mBackQueue, history.mEnd, false, mLocalNext);
      }
    }

    /** A front not to be dropped has a gap before it exactly when a clean queue is out of order. */
    lemma GapExactly()
      requires Sane() && mBackQueue != []
      ensures history.mClean ==> history.mChained
      ensures history.mChained && InOrder() ==> mBackQueue[0].mSeq <= mLocalNext
      ensures history.mClean && !Poppable(mBackQueue[0]) ==> (mLocalNext < mBackQueue[0].mSeq <==> !InOrder())
    {
      if history.mChained {
        ChainMonotone(mBackQueue, history.mEnd, history.mClean);
      }
    }

    /**
     * Drops what has been acknowledged, and pure acknowledgements already sent, from the front of the queue. What
     * remains is in order exactly when the left edge was a boundary.
     */
    method PopAcked()
      requires Sane()
      modifies this`mBackQueue, this`mBackQueueDataSize, this`mTotalBack
      modifies mMine`mAbort, mMine`mReleaseAfterBuffering, mMine`freed
      ensures Sane() && Grown()
      ensures mBackQueue == [] || !Poppable(mBackQueue[0])
      ensures mBackQueue != [] ==>
        var s := mBackQueue[0]; s.mSeq >= mLocalNext && (s.mFlag != 16 || s.mLength > 0 || s.mRetry == 0)
      ensures forall i :: 0 <= i < |old(mBackQueue)| - |mBackQueue| ==>
        var s := old(mBackQueue)[i]; s.mSeq < mLocalNext || (s.mFlag == 16 && s.mLength == 0 && s.mRetry > 0)
      ensures old(HasStuck()) ==> mBackQueue != []
      ensures !old(HasStuck()) ==> mBackQueue == []
      ensures mBackQueue != [] ==> old(mBackQueue) != [] && Last(mBackQueue) == Last(old(mBackQueue))
      ensures |mBackQueue| <= |old(mBackQueue)| && mBackQueue == old(mBackQueue)[|old(mBackQueue)| - |mBackQueue|..]
      ensures mBackQueueDataSize <= old(mBackQueueDataSize)
      ensures DataCapacity(mBackQueue) <= old(DataCapacity(mBackQueue))
      ensures (AtBoundary() <==> old(AtBoundary())) && (history.mChained ==> (InOrder() <==> old(AtBoundary())))
      ensures old(Ready()) ==> InLine()
    {
      hide TCPSession.Window, HandedOver;
      hide TCPSession.Sane, TCPSession.AtBoundary, TCPSession.InOrder;
      hide DataCapacity, TCPSession.Poppable;
      MineIsBorn();
      ghost var q, k := mBackQueue, 0;
      while mBackQueue != [] && Poppable(mBackQueue[0])
        invariant k <= |q| && mBackQueue == q[k..] && forall i :: 0 <= i < k ==> Poppable(q[i])
        invariant Sane()
        invariant old(HasStuck()) <==> HasStuck()
        invariant AtBoundary() <==> old(AtBoundary())
        invariant DataCapacity(mBackQueue) <= old(DataCapacity(mBackQueue))
        invariant mBackQueueDataSize <= old(mBackQueueDataSize)
        decreases |mBackQueue|
      {
        QueuedIsSound(mBackQueue[0]);
        PopFront(mBackQueue[0]);
        k := k + 1;
      }
      InOrderExactly();
      PoppableExactly(q);
    }

    /** A closed session has let go of its tunnel, and only an open tunnel is read. */
    ghost predicate Wired()
      reads this`mState, this`mAlive, mTunnel`mOpen, mTunnel`mReading
    {
      && (mState.CLOSED? ==> !mAlive && !mTunnel.mOpen)
      && (mTunnel.mReading ==> mTunnel.mOpen)
    }

    /** No first reset and no change of state. */
    twostate predicate Steady()
      reads this`mState, history`mClean, history`mDisorder
    {
      mState == old(mState) && history.mClean == old(history.mClean) && history.mDisorder == old(history.mDisorder)
    }

    /** No first reset, and no change of state but by pushing the FIN. */
    twostate predicate InStep()
      reads this`mState, history`mClean, history`mDisorder
    {
      && history.mClean == old(history.mClean) && history.mDisorder == old(history.mDisorder)
      && (mState == old(mState) || (old(mState) in {ESTABLISHED, CLOSE_WAIT} && mState == AfterFin(old(mState))))
    }

    /** The last datagram of the queue is a new one: its flag, its payload, and the next number expected of the peer. */
    twostate predicate Pushed(flag: byte, data: seq<byte>)
      reads this`mBackQueue, this`mRemoteNext
    {
      mBackQueue != [] && IsPush(Last(mBackQueue), flag, data)
    }

    twostate predicate IsPush(new s: TCPDatagram, flag: byte, data: seq<byte>)
      reads this`mRemoteNext
    {
      && fresh(s) && s.mFlag == flag && s.mLength == |data| <= |s.packet| && Payload(s) == data
      && s.mSeq == old(mLocalSeq) && s.mAck == mRemoteNext
    }

    /**
     * What any step of the session does to what it shares with the Router: it hands over no packet the window does not
     * admit, unless it is an RST.
     */
    twostate predicate Grown()
      reads this`mMine, this`mAlive, this`mSendWindow, mTunnel`mOpen, history`mHanded, history`mCarrying
      reads history`mClean, history`mDisorder, router`born, router`mData
    {
      GrownUpTo(Window())
    }

    twostate predicate GrownUpTo(limit: nat)
      reads this`mMine, this`mAlive, mTunnel`mOpen, history`mHanded, history`mCarrying
      reads history`mClean, history`mDisorder, router`born, router`mData
    {
      && (mAlive ==> old(mAlive)) && (mTunnel.mOpen ==> old(mTunnel.mOpen))
      && old(history.mDisorder) <= history.mDisorder
      && old(history.mCarrying) <= history.mCarrying
      && (history.mClean ==> old(history.mClean))
      && old(mMine) <= mMine && (forall s <- mMine :: s in old(mMine) || fresh(s))
      && router.born == old(router.born) + mMine
      && HandedOver(old(router.mData), old(history.mHanded), router.mData, history.mHanded, this, limit)
    }

    /**
     * From position `k` on the queue is what it was, and nothing went to the Router but its front, if the window admits
     * it and the Router did not have it already.
     */
    twostate predicate Admits(k: nat)
      reads this`mBackQueue, this`mSendWindow, router`mData
    {
      && k <= |old(mBackQueue)| && mBackQueue == old(mBackQueue)[k..]
      && router.mData == old(router.mData) +
         (if mBackQueue != [] && |mBackQueue[0].packet| < Window()
           && !old(mBackQueue[k].mBuffering) then [mBackQueue[0]]
          else [])
    }

    /** The Router has one more datagram, an RST at the left edge. */
    twostate predicate RstSent()
      reads router`mData, this`mLocalNext
    {
      && |router.mData| == |old(router.mData)| + 1 && old(router.mData) <= router.mData
      && router.mData[|old(router.mData)|].mFlag == RST + ACK && router.mData[|old(router.mData)|].mSeq == mLocalNext
    }

    /**
     * Unless the disorder branch was taken, the tunnel is read if it was read before or if the connection is
     * established and less than 2^17 octets are queued; whether it is written to stays.
     */
    twostate predicate Resumed()
      reads mTunnel`mReading, mTunnel`mOpen, mTunnel`mWriting, this`mBackQueueDataSize, history`mDisorder
    {
      ResumedIn(old(mState))
    }

    twostate predicate ResumedIn(state: TcpState)
      reads mTunnel`mReading, mTunnel`mOpen, mTunnel`mWriting, this`mBackQueueDataSize, history`mDisorder
    {
      && (mTunnel.mOpen ==> mTunnel.mWriting == old(mTunnel.mWriting))
      && (history.mDisorder == old(history.mDisorder) ==>
          mTunnel.mReading ==
            (old(mTunnel.mReading) || (state == ESTABLISHED && mTunnel.mOpen && mBackQueueDataSize < 0x2_0000)))
    }

    /** The tunnel and what decides about it, for a packet that leads to `state`. */
    ghost function Setting(state: TcpState): Tuning
      reads mTunnel`mReading, mTunnel`mWriting, history`mDisorder
    {
      Tuning(state, mTunnel.mReading, mTunnel.mWriting, history.mDisorder)
    }

    /** Payload accepted has the tunnel written to; without a reset it is still read, and resumed only if it may be. */
    ghost predicate InTune(from: Tuning, accepted: bool)
      reads mTunnel`mReading, mTunnel`mOpen, mTunnel`mWriting, this`mBackQueueDataSize, history`mDisorder
    {
      && from.disorder <= history.mDisorder
      && (mTunnel.mOpen ==> mTunnel.mWriting == (from.writing || accepted))
      && (history.mDisorder == from.disorder ==>
          && (from.reading ==> mTunnel.mReading)
          && (mTunnel.mReading ==> from.reading || MayRead(from.state)))
    }

    lemma InTuneNow(state: TcpState)
      ensures InTune(Setting(state), false)
    {
    }

    /** As `InTune`, and resumed if it may be. */
    ghost predicate Tuned(from: Tuning, accepted: bool)
      reads mTunnel`mReading, mTunnel`mOpen, mTunnel`mWriting, this`mBackQueueDataSize, history`mDisorder
    {
      InTune(from, accepted) && (history.mDisorder == from.disorder && MayRead(from.state) ==> mTunnel.mReading)
    }

    /** Without a reset the packet has led where it leads. */
    ghost predicate OnTrack(from: Tuning)
      reads this`mState, history`mDisorder
    {
      history.mDisorder == from.disorder ==> mState == from.state
    }

    /** Established, with an open tunnel and less than 2^17 octets queued. */
    predicate MayRead(state: TcpState)
      reads mTunnel`mOpen, this`mBackQueueDataSize
    {
      state == ESTABLISHED && mTunnel.mOpen && mBackQueueDataSize < 0x2_0000
    }

    /**
     * Unless the disorder branch was taken: with 2^18 octets queued an open tunnel is not read; with less it is, if it
     * was before; below 2^17 it is while established; and it is read only if it was or the connection is established.
     */
    twostate predicate PausedOrResumed()
      reads mTunnel`mReading, mTunnel`mOpen, this`mBackQueueDataSize, history`mDisorder
    {
      history.mDisorder == old(history.mDisorder) ==>
        && (mTunnel.mOpen && mBackQueueDataSize >= 0x4_0000 ==> !mTunnel.mReading)
        && (old(mTunnel.mReading) && mBackQueueDataSize < 0x4_0000 ==> mTunnel.mReading)
        && (MayRead(old(mState)) ==> mTunnel.mReading)
        && (mTunnel.mReading ==> old(mTunnel.mReading) || old(mState) == ESTABLISHED)
    }

    /** As `Resumed`, unless the FIN was due and could not be pushed. */
    twostate predicate Reopened()
      reads mTunnel`mReading, mTunnel`mOpen, mTunnel`mWriting, this`mBackQueueDataSize, history`mDisorder
    {
      if old(!HasStuck() && FinRefused())
      then mTunnel.mReading == old(mTunnel.mReading) && mTunnel.mWriting == old(mTunnel.mWriting)
      else Resumed()
    }

    /** A first reset is the disorder branch, which is not taken before, and it leaves the session dead. */
    twostate predicate GapOnly()
      reads history`mClean, history`mDisorder, this`mAlive
    {
      old(history.mClean) ==>
        if history.mClean then history.mDisorder == old(history.mDisorder)
        else !mAlive && history.mDisorder > old(history.mDisorder)
    }

    /** As `GapOnly` while the session may finish in order; in any other state nothing takes the disorder branch. */
    twostate predicate GapOrAbort()
      reads history`mClean, history`mDisorder, this`mAlive
    {
      if old(mState in {ESTABLISHED, CLOSE_WAIT}) then GapOnly()
      else history.mDisorder == old(history.mDisorder) && (old(history.mClean) && !history.mClean ==> !mAlive)
    }

    /** Hands a datagram to the Router's write queue. */
    method SendBackSegment(segment: TCPDatagram) returns (result: int)
      requires router.Valid() && segment in router.born && !segment.freed
      modifies history`mHanded, router`mData, router`mWriteEvent
      modifies segment`mRetry, segment`mBuffering, segment`mMarkPos, segment`mMarkLimit
      ensures router.Valid()
      ensures result > 0 <==> !old(segment.mBuffering)
      ensures router.mData == if result > 0 then old(router.mData) + [segment] else old(router.mData)
      ensures segment.mBuffering && segment.mRetry == old(segment.mRetry) + 1
      ensures history.mHanded == if result > 0 then old(history.mHanded) + [segment] else old(history.mHanded)
    {
      hide Router.Valid;
      router.SoundWhileBorn(segment);
      segment.mRetry := segment.mRetry + 1;
      var ok := router.OnSyncEvent(segment);
      if !ok {
        return -1;
      }
      history.mHanded := history.mHanded + [segment];
      return segment.mLimit - segment.mPos;
    }

    method Close()
      modifies this`mAlive, mTunnel
      ensures !mAlive && !mTunnel.mOpen && !mTunnel.mReading
    {
      mAlive := false;
      mTunnel.DestroyTunnel();
    }

    method SwitchState(state: TcpState)
      modifies this`mState, this`mAlive, mTunnel
      ensures mState == state
      ensures if old(mState) != CLOSED && state == CLOSED then !mAlive && !mTunnel.mOpen && !mTunnel.mReading
        else unchanged(this`mAlive) && unchanged(mTunnel)
    {
      if mState != state {
        mState := state;
        if mState == CLOSED {
          Close();
        }
      }
    }

    /** What may arrive: what an open tunnel has room for, and not more than the window field can say. */
    function Arrivable(room: nat): (n: nat)
      reads mTunnel`mOpen, this`mWindowScale
      ensures n <= Scaled(0xFFFF, mWindowScale) && (mTunnel.mOpen ==> n <= room)
    {
      if mTunnel.mOpen && room < Scaled(0xFFFF, mWindowScale) then room else Scaled(0xFFFF, mWindowScale)
    }

    /** `updateWindowSize`: what may arrive less what waits in the forward queue. */
    method UpdateWindowSize(room: nat) returns (w: nat)
      ensures w <= Arrivable(room) && (w > 0 ==> w + mForwardQueueDataSize == Arrivable(room))
      ensures w == 0 ==> mForwardQueueDataSize >= Arrivable(room)
    {
      var max := Scaled(0xFFFF, mWindowScale);
      var windowSize := if mTunnel.mOpen then room else max;
      if windowSize > max {
        windowSize := max;
      }
      if windowSize <= mForwardQueueDataSize {
        w := 0;
      } else {
        w := windowSize - mForwardQueueDataSize;
      }
    }

    /** The window field of the next packet. */
    method WindowField() returns (field: word, ghost room: nat)
      ensures Promised(field, mWindowScale, mForwardQueueDataSize, Arrivable(room))
    {
      hide Scaled, ShiftedRight, Promised;
      var available := mTunnel.GetAvailableBufferSize();
      room := available;
      var w := UpdateWindowSize(available);
      FieldPromised(w, mWindowScale, mForwardQueueDataSize, Arrivable(available));
      field := ShiftedRight(w, mWindowScale);
    }

    /** A packet at the current local sequence number; its window is what the tunnel has room for. */
    method BuildPackage(flag: byte, data: seq<byte>) returns (segment: TCPDatagram, ghost f: Fields, ghost room: nat)
      requires |data| <= TCP_IP_PAYLOAD_SIZE
      requires router.Valid()
      modifies this`mMine, router`born
      ensures router.Valid() && fresh(segment) && !segment.freed && segment.Whole()
      ensures !segment.mBuffering && !segment.mAbort && !segment.mReleaseAfterBuffering && segment.mRetry == 0
      ensures router.born == old(router.born) + {segment} && mMine == old(mMine) + {segment}
      ensures segment.mSeq == mLocalSeq && segment.mFlag == flag && segment.mLength == |data|
      ensures segment.owner == this && |segment.packet| >= |data|
      ensures |segment.packet| == 40 + |data| + if flag / 2 % 2 == 1 then 10 else 0
      ensures Built(segment, mLocalSeqBase, mRemoteSeqBase) && Payload(segment) == data
      ensures segment.mAck == mRemoteNext && (old(Owned()) ==> OwnedBut(segment, mBackQueue))
      ensures f.flag == flag && f.seqNo == mLocalSeq + mLocalSeqBase && f.ackNo == mRemoteNext + mRemoteSeqBase
      ensures Promised(f.window, mWindowScale, mForwardQueueDataSize, Arrivable(room))
      ensures f.windowScale == mWindowScale && segment.packet == Packet(ends, f, data)
    {
      hide Router.Valid, Built, Payload, Packet, Promised;
      var window;
      window, room := WindowField();
      var fields := Fields(flag, mLocalSeq + mLocalSeqBase, mRemoteNext + mRemoteSeqBase, window, mWindowScale);
      f := fields;
      segment := MakeDatagram(ends, fields, data, mLocalSeq, mRemoteNext, mLocalSeqBase, mRemoteSeqBase, this);
      router.Adopt(segment);
      mMine := mMine + {segment};
    }

    /** Hands over a datagram that is in no queue and left to the Router. */
    method SendUnqueued(segment: TCPDatagram) returns (result: int)
      requires OwnedBut(segment, mBackQueue) && segment.mReleaseAfterBuffering && segment.mFlag == RST + ACK
        && !segment.mBuffering
      requires Back() && !history.mClean && router.Valid() && segment in router.born && !segment.freed
      requires segment !in mBackQueue && Built(segment, mLocalSeqBase, mRemoteSeqBase)
      modifies history`mHanded, router`mData, router`mWriteEvent
      modifies segment`mRetry, segment`mBuffering, segment`mMarkPos, segment`mMarkLimit
      ensures result > 0 && Back() && Owned() && router.Valid() && segment.mBuffering
      ensures router.mData == old(router.mData) + [segment] && history.mHanded == old(history.mHanded) + [segment]
    {
      hide Router.Valid, Built, Chain, Distinct, AllBuilt, AllCarry, PayloadSum, CapacitySum;
      AllBuiltMore(history.mHanded, segment, mLocalSeqBase, mRemoteSeqBase);
      result := SendBackSegment(segment);
    }

    /** The Router is to free this datagram, not queued yet, when it leaves the Router's queue. */
    method LeaveToRouter(segment: TCPDatagram)
      requires router.Valid() && segment in router.born && !segment.freed && !segment.mBuffering
      modifies segment`mReleaseAfterBuffering
      ensures router.Valid() && segment.mReleaseAfterBuffering
    {
      hide Router.Emission;
      segment.mReleaseAfterBuffering := true;
    }

    /** An RST at the current sequence number, left to the Router to release. */
    method SendReset() returns (r: int)
      requires Sane() && !history.mClean
      modifies history`mHanded, this`mMine, router`mData, router`mWriteEvent, router`born
      ensures Sane() && Grown()
      ensures r > 0 && |router.mData| == |old(router.mData)| + 1
      ensures var s := router.mData[|old(router.mData)|];
        && history.mHanded == old(history.mHanded) + [s]
        && mMine == old(mMine) + {s} && fresh(s) && s.owner == this && s.mReleaseAfterBuffering
        && s.mFlag == RST + ACK && s.mSeq == mLocalSeq
    {
      hide HandedOver, TCPSession.Owned, TCPSession.OwnedBut;
      hide TCPSession.Back, Router.Valid, Built, Payload, Packet, TCPDatagram.Whole;
      MineIsBorn();
      ghost var f, room;
      var segment;
      segment, f, room := BuildPackage(RST + ACK, []);
      assert segment !in mBackQueue;
      LeaveToRouter(segment);
      OneHanded(router.mData, history.mHanded, segment, Window());
      r := SendUnqueued(segment);
      // The Router takes every new packet, so the branch that deletes a refused one is never taken.
    }

    /** Goes back to the left edge, whatever is queued. */
    method StepBack()
      requires Back()
      modifies this`mLocalSeq, history`mClean, history`mChained
      ensures Back() && !history.mClean && mLocalSeq == mLocalNext
      ensures history.mChained == (old(history.mChained) && mLocalNext <= history.mEnd)
    {
      hide Distinct, AllBuilt, AllCarry, Chain, PayloadSum, CapacitySum;
      history.mClean := false;
      history.mChained := history.mChained && mLocalNext <= history.mEnd;
      mLocalSeq := mLocalNext;
    }

    /** What a reset leaves: the connection closed, its RST handed to the Router to release. */
    method ResetConnection()
      requires Sane()
      modifies this`mLocalSeq, this`mState, this`mAlive, history`mClean, history`mChained, history`mHanded
      modifies this`mMine, mTunnel
      modifies router`mData, router`mWriteEvent, router`born
      ensures Sane() && Grown()
      ensures mState.CLOSED? && !history.mClean
        && history.mChained == (old(history.mChained) && mLocalNext <= history.mEnd)
      ensures mLocalSeq == mLocalNext && |router.mData| == |old(router.mData)| + 1
      ensures var s := router.mData[|old(router.mData)|];
        s.mFlag == RST + ACK && s.mSeq == mLocalNext && fresh(s) && history.mHanded == old(history.mHanded) + [s]
      ensures old(Wired()) ==> Wired()
      ensures mTunnel.mReading ==> old(mTunnel.mReading)
      ensures mTunnel.mOpen ==> unchanged(mTunnel)
    {
      hide TCPSession.Window, HandedOver;
      hide TCPSession.Back, TCPSession.Owned, Router.Valid;
      StepBack();
      var sent := SendReset();
      if sent > 0 {
        SwitchState(CLOSED);
      }
    }

    lemma MineIsBorn()
      requires Sane()
      ensures router.born == router.born + mMine
      ensures HandedOver(router.mData, history.mHanded, router.mData, history.mHanded, this, Window())
    {
      NothingHanded(router.mData, history.mHanded, this, Window());
    }

    /** A queued datagram is allocated, and all of it is left to write unless the Router has it already. */
    lemma QueuedIsSound(segment: TCPDatagram)
      requires Sane() && segment in mBackQueue
      ensures segment.owner == this && segment.Sound() && segment in router.born && segment in mMine && !segment.freed
    {
    }

    /** Hands a queued datagram to the Router. */
    method SendQueued(segment: TCPDatagram) returns (result: int)
      requires Sane() && segment in mBackQueue && |segment.packet| < Window()
      modifies history`mHanded, router`mData, router`mWriteEvent
      modifies segment`mRetry, segment`mBuffering, segment`mMarkPos, segment`mMarkLimit
      ensures Sane() && Grown()
      ensures (result > 0 <==> !old(segment.mBuffering)) && segment.mBuffering
      ensures router.mData == if result > 0 then old(router.mData) + [segment] else old(router.mData)
      ensures history.mHanded == if result > 0 then old(history.mHanded) + [segment] else old(history.mHanded)
    {
      hide HandedOver;
      hide Built, Carries, Router.Valid, Chain, PayloadSum, CapacitySum, AllCarry;
      NothingHanded(router.mData, history.mHanded, this, Window());
      OneHanded(router.mData, history.mHanded, segment, Window());
      result := SendBackSegment(segment);
    }

    /** Goes through the queue from its front: sends at most one packet, or finds a gap before the front. */
    method SendFront(limit: nat) returns (sent: nat, gap: bool)
      requires Sane() && limit == Window()
      modifies history`mHanded, router`mData, router`mWriteEvent
      modifies mMine
      ensures Sane() && Grown()
      ensures gap <==> mBackQueue != [] && mLocalNext < mBackQueue[0].mSeq
      ensures mBackQueue != [] && !gap && |mBackQueue[0].packet| < limit ==> mBackQueue[0].mBuffering
      ensures var goes := mBackQueue != [] && !gap && |mBackQueue[0].packet| < limit && !old(mBackQueue[0].mBuffering);
        && router.mData == old(router.mData) + (if goes then [mBackQueue[0]] else [])
        && sent == if goes then |mBackQueue[0].packet| else 0
    {
      hide HandedOver, TCPSession.Sane, TCPDatagram.Sound, HasFlag;
      MineIsBorn();
      ghost var goes := mBackQueue != [] && |mBackQueue[0].packet| < limit && !mBackQueue[0].mBuffering;
      var w, packets, i := 0, 0, 0;
      sent, gap := 0, false;
      while i < |mBackQueue|
        invariant i <= |mBackQueue| && (i > 0 <==> w > 0)
        invariant i > 0 ==> mLocalNext >= mBackQueue[0].mSeq && mBackQueue[0].mBuffering && packets == 1
        invariant i == 0 ==> w == packets == 0 && forall s <- mBackQueue :: s.mBuffering == old(s.mBuffering)
        invariant Sane() && Grown()
        invariant router.mData == old(router.mData) + (if i > 0 && goes then [mBackQueue[0]] else [])
        invariant sent == if i > 0 && goes then |mBackQueue[0].packet| else 0
      {
        var segment := mBackQueue[i];
        if w > 0 && HasFlag(segment.mFlag, FIN) {
          return;
        }
        if w == 0 && mLocalNext < segment.mSeq {
          return 0, true;
        }
        QueuedIsSound(segment);
        segment.Soundly();
        var len := segment.Size();
        w := w + len;
        if w < limit && packets < TCP_MAX_SEND_PACKET {
          packets := packets + 1;
          if !segment.mBuffering {
            ghost var q, handed := router.mData, history.mHanded;
            var result := SendQueued(segment);
            HandedOn(old(router.mData), old(history.mHanded), q, handed, router.mData, history.mHanded,
                     this, limit, limit);
            if result > 0 {
              sent := sent + len;
            } else {
              return;
            }
          }
        } else {
          return;
        }
        i := i + 1;
      }
    }

    /** What a flush may send at once: what the peer's window takes, 64 KiB at most. */
    function Window(): (limit: nat)
      reads this`mSendWindow
      ensures limit <= mSendWindow && limit <= 0x1_0000 && (limit == mSendWindow || limit == 0x1_0000)
    {
      if mSendWindow > TCP_MAX_SEND_WINDOW then TCP_MAX_SEND_WINDOW else mSendWindow
    }

    /** Sends what the window admits; a gap before the front resets the connection. */
    method SendWindow() returns (sent: nat)
      requires Sane()
      modifies this`mLocalSeq, this`mState, this`mAlive, history`mClean, history`mChained, history`mDisorder
      modifies history`mHanded
      modifies this`mMine, mTunnel, router`mData, router`mWriteEvent, router`born, mMine
      ensures Sane() && Grown()
      ensures mState == old(mState) || mState.CLOSED?
      ensures mBackQueue != [] && mLocalNext < mBackQueue[0].mSeq ==>
        mState.CLOSED? && !history.mClean && history.mDisorder == old(history.mDisorder) + 1
      ensures mBackQueue == [] || mLocalNext >= mBackQueue[0].mSeq ==> Steady() && Admits(0)
      ensures mBackQueue != [] && mLocalNext < mBackQueue[0].mSeq ==> RstSent()
      ensures Resumed()
      ensures mBackQueue != [] && mLocalNext >= mBackQueue[0].mSeq && |mBackQueue[0].packet| < Window() ==>
        mBackQueue[0].mBuffering
      ensures old(InLine()) ==> Orderly() && Steady()
      ensures old(Wired()) ==> Wired()
      ensures old(Wired()) ==> GapOnly()
      ensures mLocalSeq == old(mLocalSeq) || mLocalSeq == mLocalNext
      ensures mTunnel.mReading ==> old(mTunnel.mReading) || mBackQueueDataSize < TCP_SESSION_BUFFER_SIZE / 2
    {
      hide HandedOver;
      hide TCPSession.Sane, TCPSession.AtBoundary, TCPSession.InOrder;
      if mBackQueue != [] {
        GapExactly();
      }
      var gap;
      sent, gap := SendFront(Window());
      if gap {
        history.mDisorder := history.mDisorder + 1;
        ghost var q, handed := router.mData, history.mHanded;
        ResetConnection();
        HandedOn(old(router.mData), old(history.mHanded), q, handed, router.mData, history.mHanded,
                 this, Window(), Window());
        return 0;
      }
      // With enough space in the queue, the tunnel may be read again.
      if mState.ESTABLISHED? && mBackQueueDataSize < TCP_SESSION_BUFFER_SIZE / 2 {
        mTunnel.ResumeReceiveData();
      }
    }

    /** The FIN, once pushed, found everything before it acknowledged. */
    ghost predicate FinAfterAll()
      reads history`mFins, this`mLocalNext, history`mStream
    {
      history.mFins > 0 ==> mLocalNext >= 1 + |history.mStream|
    }

    /** The left edge is a boundary of an unbroken chain; only a closed session has sent a reset. */
    ghost predicate Ready()
      reads history`mClean, history`mChained, this`mLocalNext, history`mEnd, this`mBackQueue, history`mFins
      reads history`mStream, this`mState
    {
      history.mChained && AtBoundary() && FinAfterAll() && (history.mClean || mState.CLOSED?)
    }

    /** As `Ready`, with what is acknowledged dropped. */
    ghost predicate InLine()
      reads history`mClean, history`mChained, this`mLocalNext, history`mEnd, this`mBackQueue, history`mFins
      reads history`mStream, this`mState
    {
      Ready() && InOrder()
    }

    /** Between steps: in line, except that a session that was reset may still have acknowledged datagrams queued. */
    ghost predicate Orderly()
      reads history`mClean, history`mChained, this`mLocalNext, history`mEnd, this`mBackQueue, history`mFins
      reads history`mStream, this`mState
    {
      Ready() && (history.mClean ==> InOrder())
    }

    /**
     * Payload comes between the SYN and the FIN, the FIN after all of it is acknowledged, and neither after a reset.
     */
    ghost predicate Fits(flag: byte, length: nat)
      reads history`mClean, history`mSyns, history`mFins, this`mLocalNext, history`mStream
    {
      if history.mClean then
        && (length > 0 ==> history.mSyns == 1 && history.mFins == 0)
        && (flag == FIN + ACK ==> mLocalNext >= 1 + |history.mStream|)
      else length == 0 && flag == ACK
    }

    /** The queue, its size and the next number. */
    method Put(segment: TCPDatagram)
      requires Queued() && segment !in mBackQueue && Built(segment, mLocalSeqBase, mRemoteSeqBase)
      requires !segment.freed && !segment.mAbort && !segment.mReleaseAfterBuffering
      modifies this`mBackQueue, this`mBackQueueDataSize, this`mLocalSeq
      ensures mBackQueueDataSize == old(mBackQueueDataSize) + |segment.packet|
      ensures Queued() && mBackQueue == old(mBackQueue) + [segment] && mLocalSeq == old(mLocalSeq) + Advance(segment)
      ensures PayloadSum(mBackQueue) == old(PayloadSum(mBackQueue)) + segment.mLength
    {
      hide AllBuilt, Distinct, Built, PayloadSum, CapacitySum, Advance, HasFlag;
      AllBuiltPush(mBackQueue, segment, mLocalSeqBase, mRemoteSeqBase);
      SumsPush(mBackQueue, segment);
      mBackQueue := mBackQueue + [segment];
      mBackQueueDataSize := mBackQueueDataSize + |segment.packet|;
      AdvanceIs(segment);
      if HasFlag(segment.mFlag, FIN) || HasFlag(segment.mFlag, SYN) {
        mLocalSeq := mLocalSeq + 1;
      } else {
        mLocalSeq := mLocalSeq + segment.mLength;
      }
    }

    /** Puts a new datagram at the end of the queue. */
    method Enqueue(segment: TCPDatagram, ghost payload: seq<byte>)
      requires Back() && segment !in mBackQueue
      requires !segment.freed && !segment.mAbort && !segment.mReleaseAfterBuffering
      requires Built(segment, mLocalSeqBase, mRemoteSeqBase) && segment.mSeq == mLocalSeq
      requires segment.mLength == |payload| <= |segment.packet| && Payload(segment) == payload
      requires segment.mFlag in {ACK, SYN + ACK, FIN + ACK} && (payload != [] ==> segment.mFlag == ACK)
      modifies this`mBackQueue, this`mBackQueueDataSize, this`mLocalSeq, history`mStream, history`mSyns, history`mFins
      modifies history`mClean, history`mEnd, history`mChained, history`mCarrying
      ensures mBackQueueDataSize == old(mBackQueueDataSize) + |segment.packet|
      ensures Back() && mBackQueue == old(mBackQueue) + [segment]
      ensures history.mEnd == old(history.mEnd) + Advance(segment)
      ensures history.mChained ==
        (old(history.mChained) && (Advance(segment) > 0 ==> segment.mSeq == old(history.mEnd)))
      ensures history.mCarrying == old(history.mCarrying) + if history.mClean then {segment} else {}
      ensures history.mStream == old(history.mStream) + payload
      ensures history.mSyns == old(history.mSyns) + (if segment.mFlag == SYN + ACK then 1 else 0)
      ensures history.mFins == old(history.mFins) + (if segment.mFlag == FIN + ACK then 1 else 0)
      ensures mLocalSeq == old(mLocalSeq) + Advance(segment)
      ensures history.mClean ==
        (old(history.mClean) && (payload != [] ==> old(history.mSyns) == 1 && old(history.mFins) == 0))
    {
      hide AllBuilt, AllCarry, AllIn, Built, Payload, Carries, PayloadSum, Advance, HasFlag;
      hide History.Linked, TCPSession.Queued;
      ghost var q, was := mBackQueue, history.mStream;
      Put(segment);
      history.Push(q, segment, payload);
      history.Carry(q, segment, was, payload);
    }

    /** Puts a new datagram at the end of the queue, where it stays until it is acknowledged. */
    method EnqueueInOrder(segment: TCPDatagram, ghost payload: seq<byte>)
      requires Back() && segment !in mBackQueue && mLocalNext <= mLocalSeq && segment.mRetry == 0
      requires !segment.freed && !segment.mAbort && !segment.mReleaseAfterBuffering
      requires Built(segment, mLocalSeqBase, mRemoteSeqBase) && segment.mSeq == mLocalSeq
      requires segment.mLength == |payload| <= |segment.packet| && Payload(segment) == payload
      requires segment.mFlag in {ACK, SYN + ACK, FIN + ACK} && (payload != [] ==> segment.mFlag == ACK)
      modifies this`mBackQueue, this`mBackQueueDataSize, this`mLocalSeq, history`mStream, history`mSyns, history`mFins
      modifies history`mClean, history`mEnd, history`mChained, history`mCarrying
      ensures mBackQueueDataSize == old(mBackQueueDataSize) + |segment.packet|
      ensures Back() && mBackQueue == old(mBackQueue) + [segment]
      ensures history.mEnd == old(history.mEnd) + Advance(segment)
      ensures history.mChained ==
        (old(history.mChained) && (Advance(segment) > 0 ==> segment.mSeq == old(history.mEnd)))
      ensures history.mCarrying == old(history.mCarrying) + if history.mClean then {segment} else {}
      ensures history.mStream == old(history.mStream) + payload
      ensures history.mSyns == old(history.mSyns) + (if segment.mFlag == SYN + ACK then 1 else 0)
      ensures history.mFins == old(history.mFins) + (if segment.mFlag == FIN + ACK then 1 else 0)
      ensures HasStuck() && mLocalSeq >= old(mLocalSeq)
      ensures DataCapacity(mBackQueue) == old(DataCapacity(mBackQueue)) + if payload != [] then |segment.packet| else 0
      ensures old(Ready() && Fits(segment.mFlag, |payload|)) ==> Ready() && history.mClean == old(history.mClean)
      ensures payload == [] ==> history.mClean == old(history.mClean)
      ensures history.mClean ==
        (old(history.mClean) && (payload != [] ==> old(history.mSyns) == 1 && old(history.mFins) == 0))
      ensures history.mClean ==> (AtBoundary() <==> old(AtBoundary()))
      ensures segment.mFlag == ACK && payload == [] ==> (AtBoundary() <==> old(AtBoundary()))
    {
      hide Payload, Advance, Built, HasFlag, Boundary, DataCapacity, Chain, AllBuilt, AllCarry, Distinct;
      hide PayloadSum, CapacitySum;
      if segment.mFlag == ACK && segment.mLength == 0 {
        PureAck(segment);
      }
      ghost var q := mBackQueue;
      if Advance(segment) > 0 ==> mLocalSeq == history.mEnd {
        BoundaryAfterPush(q, segment, history.mEnd, mLocalNext);
      }
      SumsPush(q, segment);
      Enqueue(segment, payload);
      assert segment in mBackQueue;
    }

    /** Builds a datagram and puts it at the end of the queue, where it stays until it is acknowledged. */
    method Append(flag: byte, data: seq<byte>)
      requires Sane() && mLocalNext <= mLocalSeq
      requires |data| <= TCP_IP_PAYLOAD_SIZE
      requires flag in {ACK, SYN + ACK, FIN + ACK} && (data != [] ==> flag == ACK)
      modifies this`mBackQueue, this`mBackQueueDataSize, this`mLocalSeq, history`mStream, history`mSyns, history`mFins
      modifies history`mClean, history`mEnd, history`mChained, history`mCarrying, this`mMine, router`born
      ensures Sane() && Grown() && Pushed(flag, data) && |mBackQueue| == |old(mBackQueue)| + 1
      ensures history.mStream == old(history.mStream) + data
      ensures history.mSyns == old(history.mSyns) + (if flag == SYN + ACK then 1 else 0)
      ensures history.mFins == old(history.mFins) + (if flag == FIN + ACK then 1 else 0)
      ensures mBackQueueDataSize ==
        old(mBackQueueDataSize) + 40 + |data| + if flag == SYN + ACK then 10 else 0
      ensures HasStuck() && mLocalSeq >= old(mLocalSeq)
      ensures DataCapacity(mBackQueue) == old(DataCapacity(mBackQueue)) + if data != [] then 40 + |data| else 0
      ensures old(Ready() && Fits(flag, |data|)) ==> Ready() && history.mClean == old(history.mClean)
      ensures data == [] ==> history.mClean == old(history.mClean)
      ensures history.mCarrying == old(history.mCarrying) + if history.mClean then {Last(mBackQueue)} else {}
      ensures history.mClean ==> (AtBoundary() <==> old(AtBoundary()))
      ensures (data != [] ==> old(history.mSyns == 1 && history.mFins == 0)) ==> history.mClean == old(history.mClean)
      ensures data != [] && !old(history.mSyns == 1 && history.mFins == 0) ==> !history.mClean
      ensures flag == ACK && data == [] ==> (AtBoundary() <==> old(AtBoundary()))
    {
      hide TCPSession.Window, HandedOver, TCPSession.Owned, TCPSession.OwnedBut, Boundary, Start, TCPDatagram.Whole;
      hide AllBuilt, Distinct;
      hide TCPSession.Back, Router.Valid, Payload, Advance, Built, HasFlag, DataCapacity, Packet;
      hide TCPSession.Ready, TCPSession.Fits, TCPSession.HasStuck, TCPSession.AtBoundary;
      MineIsBorn();
      ghost var f, room;
      var segment;
      segment, f, room := BuildPackage(flag, data);
      ghost var q := mBackQueue;
      EnqueueInOrder(segment, data);
      OwnedQueued(segment, q);
    }

    /** A flush with something left in the queue pushes no FIN. */
    method FlushStuck()
      requires Sane() && HasStuck() && mLocalNext <= mLocalSeq
      modifies this`mBackQueue, this`mBackQueueDataSize, this`mTotalBack, this`mLocalSeq, this`mState, this`mAlive
      modifies this`mMine, history
      modifies mTunnel, router`mData, router`mWriteEvent, router`born, mMine
      ensures Sane() && Grown() && mLocalNext <= mLocalSeq
      ensures history.mStream == old(history.mStream)
      ensures history.mSyns == old(history.mSyns) && history.mFins == old(history.mFins)
      ensures mBackQueue != [] && Last(mBackQueue) == Last(old(mBackQueue)) && |mBackQueue| <= |old(mBackQueue)|
      ensures if mLocalNext < mBackQueue[0].mSeq
        then mState.CLOSED? && !history.mClean && history.mDisorder > old(history.mDisorder) else Steady()
      ensures Resumed() && (mBackQueueDataSize <= old(mBackQueueDataSize) || mBackQueueDataSize < 0x2_0000)
      ensures old(Wired()) ==> Wired() && GapOnly()
      ensures DataCapacity(mBackQueue) <= old(DataCapacity(mBackQueue))
      ensures mTunnel.mReading ==> old(mTunnel.mReading) || mBackQueueDataSize < TCP_SESSION_BUFFER_SIZE / 2
      ensures old(Ready()) ==> Orderly() && Steady()
      ensures old(history.mClean) ==> (history.mClean <==> old(AtBoundary()))
      ensures history.mClean ==> (AtBoundary() <==> old(AtBoundary()))
      decreases 2
    {
      hide HandedOver, TCPSession.Window, TCPSession.Unfinished, TCPSession.MayFinish, TCPSession.Finished;
      hide TCPSession.Sane, TCPSession.AtBoundary, TCPSession.Ready, TCPSession.Orderly, TCPSession.HasStuck;
      hide TCPSession.Wired, DataCapacity, TCPSession.Admits, TCPSession.RstSent, TCPSession.Grown, TCPSession.Resumed;
      hide TCPSession.GapOnly, TCPSession.Steady;
      var sent := FlushBackQueue();
    }

    /** Queues a packet and flushes the queue. */
    method PushAndFlush(flag: byte, data: seq<byte>)
      requires Sane() && mLocalNext <= mLocalSeq
      requires |data| <= TCP_IP_PAYLOAD_SIZE
      requires flag in {ACK, SYN + ACK, FIN + ACK} && (data != [] ==> flag == ACK)
      modifies this`mBackQueue, this`mBackQueueDataSize, this`mTotalBack, this`mLocalSeq, this`mState, this`mAlive
      modifies this`mMine, history
      modifies mTunnel, router`mData, router`mWriteEvent, router`born, mMine
      ensures Sane() && Grown()
      ensures Pushed(flag, data) && history.mStream == old(history.mStream) + data
      ensures |mBackQueue| <= |old(mBackQueue)| + 1
      ensures if mLocalNext < mBackQueue[0].mSeq
        then mState.CLOSED? && !history.mClean && history.mDisorder > old(history.mDisorder)
        else mState == old(mState) && history.mDisorder == old(history.mDisorder)
      ensures history.mSyns == old(history.mSyns) + if flag == SYN + ACK then 1 else 0
      ensures history.mFins == old(history.mFins) + if flag == FIN + ACK then 1 else 0
      ensures Resumed()
      ensures mBackQueueDataSize <= old(mBackQueueDataSize) + 40 + |data| + (if flag == SYN + ACK then 10 else 0)
        || mBackQueueDataSize < 0x2_0000
      ensures old(Wired()) ==> Wired()
      ensures DataCapacity(mBackQueue) <= old(DataCapacity(mBackQueue)) + if data != [] then 40 + |data| else 0
      ensures mTunnel.mReading ==> old(mTunnel.mReading) || mBackQueueDataSize < TCP_SESSION_BUFFER_SIZE / 2
      ensures old(Ready() && Fits(flag, |data|)) ==> Orderly() && Steady()
      ensures old(history.mClean) ==> (history.mClean <==>
        old(AtBoundary()) && (data != [] ==> old(history.mSyns == 1 && history.mFins == 0)))
      ensures history.mClean ==> (AtBoundary() <==> old(AtBoundary()))
      ensures old(Wired()) && (data != [] ==> old(history.mSyns == 1 && history.mFins == 0)) ==> GapOnly()
      ensures mLocalNext <= mLocalSeq
      decreases 3
    {
      hide HandedOver, TCPSession.Window, TCPSession.Unfinished, TCPSession.MayFinish, TCPSession.Finished;
      hide TCPSession.Sane, Advance, TCPSession.AtBoundary, Payload;
      hide TCPSession.Ready, TCPSession.InLine, TCPSession.Orderly, TCPSession.HasStuck, TCPSession.Fits;
      hide TCPSession.Wired, DataCapacity;
      Append(flag, data);
      FlushStuck();
    }

    /** Queues a packet and flushes the queue; refused when the peer acknowledged more than was ever sent. */
    method PushInBackQueue(flag: byte, data: seq<byte>) returns (r: int)
      requires Sane()
      requires |data| <= TCP_IP_PAYLOAD_SIZE
      requires flag in {ACK, SYN + ACK, FIN + ACK} && (data != [] ==> flag == ACK)
      modifies this`mBackQueue, this`mBackQueueDataSize, this`mTotalBack, this`mLocalSeq, this`mState, this`mAlive
      modifies this`mMine, history
      modifies mTunnel, router`mData, router`mWriteEvent, router`born, mMine
      ensures Sane() && Grown()
      ensures history.mDisorder == old(history.mDisorder) ==> mState == old(mState)
      ensures r == if old(mLocalNext > mLocalSeq) then -1 else |data|
      ensures r < 0 ==> unchanged(router) && unchanged(this) && unchanged(history) && unchanged(mTunnel)
      ensures r < 0 ==> HasStuck() == old(HasStuck())
      ensures r >= 0 ==> Pushed(flag, data) && history.mStream == old(history.mStream) + data
      ensures r >= 0 && old(mBackQueue) == [] ==>
        if old(mLocalNext < mLocalSeq) then mState.CLOSED? && !history.mClean
        else mState == old(mState) && history.mDisorder == old(history.mDisorder)
      ensures r >= 0 ==> history.mSyns == old(history.mSyns) + if flag == SYN + ACK then 1 else 0
      ensures r >= 0 ==> history.mFins == old(history.mFins) + if flag == FIN + ACK then 1 else 0
      ensures mState == old(mState) || mState.CLOSED?
      ensures r >= 0 ==> Resumed()
      ensures mBackQueueDataSize <= old(mBackQueueDataSize) + 40 + |data| + (if flag == SYN + ACK then 10 else 0)
        || mBackQueueDataSize < 0x2_0000
      ensures old(Wired()) ==> Wired()
      ensures DataCapacity(mBackQueue) <= old(DataCapacity(mBackQueue)) + if data != [] then 40 + |data| else 0
      ensures mTunnel.mReading ==> old(mTunnel.mReading) || mBackQueueDataSize < TCP_SESSION_BUFFER_SIZE / 2
      ensures old(Ready() && Fits(flag, |data|)) ==> Orderly() && Steady()
      ensures old(history.mClean) && r >= 0 ==> (history.mClean <==>
        old(AtBoundary()) && (data != [] ==> old(history.mSyns == 1 && history.mFins == 0)))
      ensures history.mClean ==> (AtBoundary() <==> old(AtBoundary()))
      ensures old(Wired()) && (data != [] ==> old(history.mSyns == 1 && history.mFins == 0)) ==> GapOnly()
      ensures r >= 0 ==> mLocalNext <= mLocalSeq
      decreases 4
    {
      hide TCPSession.Window, HandedOver;
      hide TCPSession.Sane, Advance, TCPSession.AtBoundary, Payload;
      hide TCPSession.Ready, TCPSession.InLine, TCPSession.Orderly, TCPSession.HasStuck, TCPSession.Fits;
      hide TCPSession.Wired, DataCapacity;
      MineIsBorn();
      if mLocalNext > mLocalSeq {
        NeverAhead();
        r := -1;
      } else {
        PushAndFlush(flag, data);
        r := |data|;
      }
    }

    /** Pushes the FIN: everything has been sent back and the remote has finished. */
    method Finish()
      requires Sane()
      requires mBackQueue == [] && mRemoteFinished && (mState.ESTABLISHED? || mState.CLOSE_WAIT?)
      modifies this`mBackQueue, this`mBackQueueDataSize, this`mTotalBack, this`mLocalSeq, this`mState, this`mAlive
      modifies this`mMine, history
      modifies mTunnel, router`mData, router`mWriteEvent, router`born, mMine
      ensures Sane() && Grown()
      ensures history.mStream == old(history.mStream) && history.mSyns == old(history.mSyns)
      ensures old(MayFinish()) ==> Resumed() && mBackQueueDataSize < 0x2_0000
      ensures if old(MayFinish()) then Finished()
        else unchanged(this) && unchanged(history) && unchanged(mTunnel) && unchanged(router)
      ensures old(MayFinish() && mLocalNext == mLocalSeq) ==> history.mClean == old(history.mClean)
      ensures old(Wired()) ==> Wired()
      ensures old(Wired()) ==> GapOnly()
      ensures DataCapacity(mBackQueue) == 0
      ensures mTunnel.mReading ==> old(mTunnel.mReading) || mBackQueueDataSize < TCP_SESSION_BUFFER_SIZE / 2
      ensures old(InLine() && Unfinished()) ==> Orderly() && InStep()
      ensures history.mClean ==> (AtBoundary() <==> old(AtBoundary()))
      ensures old(mLocalNext <= mLocalSeq) ==> mLocalNext <= mLocalSeq
      ensures old(history.mClean) ==> (history.mClean <==> old(AtBoundary() || !MayFinish()))
      decreases 5
    {
      hide TCPSession.Window, HandedOver;
      hide TCPSession.Sane, Chain, Boundary, Start;
      NothingLeft();
      var r := PushInBackQueue(FIN + ACK, []);
      if r >= 0 {
        SwitchState(AfterFin(mState));
      }
    }

    /**
     * With nothing to drop: a finished remote and an empty queue make it push the FIN, which comes back to the flush
     * once, with something in the queue; otherwise it sends what the window admits.
     */
    method FinishOrSend() returns (sent: nat)
      requires Sane() && (mBackQueue == [] || !Poppable(mBackQueue[0]))
      modifies this`mBackQueue, this`mBackQueueDataSize, this`mTotalBack, this`mLocalSeq, this`mState, this`mAlive
      modifies this`mMine, history
      modifies mTunnel, router`mData, router`mWriteEvent, router`born, mMine
      ensures Sane() && Grown()
      ensures history.mStream == old(history.mStream) && history.mSyns == old(history.mSyns)
      ensures old(mBackQueue == [] && MayFinish()) ==> Finished()
      ensures old(mBackQueue == [] && !MayFinish()) ==>
        Steady() && history.mFins == old(history.mFins) && Admits(0)
      ensures if old(mBackQueue == [] && FinRefused()) then unchanged(mTunnel) else Resumed()
      ensures mBackQueueDataSize <= old(mBackQueueDataSize) || mBackQueueDataSize < 0x2_0000
      ensures old(mBackQueue) != [] ==> history.mFins == old(history.mFins) && Sent()
      ensures old(Wired()) ==> Wired() && GapOnly()
      ensures DataCapacity(mBackQueue) <= old(DataCapacity(mBackQueue))
      ensures mTunnel.mReading ==> old(mTunnel.mReading) || mBackQueueDataSize < TCP_SESSION_BUFFER_SIZE / 2
      ensures old(InLine() && Unfinished()) ==> Orderly() && InStep()
      ensures old(InLine() && mBackQueue != []) ==> Orderly() && Steady()
      ensures old(history.mClean) ==>
        (history.mClean <==> old(if mBackQueue == [] then AtBoundary() || !MayFinish() else InOrder()))
      ensures history.mClean ==> (AtBoundary() <==> old(AtBoundary()))
      ensures old(mLocalNext <= mLocalSeq) ==> mLocalNext <= mLocalSeq
      decreases if mBackQueue != [] then 0 else 6
    {
      hide HandedOver, TCPSession.Window, TCPSession.Unfinished, AfterFin, Boundary, Start;
      hide TCPSession.Sane, TCPSession.Ready, TCPSession.InLine, TCPSession.Orderly, TCPSession.Poppable;
      hide TCPSession.AtBoundary, TCPSession.InOrder, TCPSession.HasStuck, TCPSession.Wired, DataCapacity;
      MineIsBorn();
      if mBackQueue != [] {
        GapExactly();
      }
      if mRemoteFinished && (mState.ESTABLISHED? || mState.CLOSE_WAIT?) {
        if mBackQueue == [] {
          Finish();
          return 0;
        }
      }
      sent := SendWindow();
    }

    /** Drops what is acknowledged, then pushes the FIN or sends. */
    method FlushBackQueue() returns (sent: nat)
      requires Sane()
      modifies this`mBackQueue, this`mBackQueueDataSize, this`mTotalBack, this`mLocalSeq, this`mState, this`mAlive
      modifies this`mMine, history
      modifies mTunnel, router`mData, router`mWriteEvent, router`born, mMine
      ensures Sane() && Grown()
      ensures history.mStream == old(history.mStream) && history.mSyns == old(history.mSyns)
      ensures Finished() || (history.mFins == old(history.mFins) && (mState == old(mState) || mState.CLOSED?))
      ensures old(HasStuck()) ==> history.mFins == old(history.mFins)
      ensures Flushed()
      ensures Reopened()
      ensures mBackQueueDataSize <= old(mBackQueueDataSize) || mBackQueueDataSize < 0x2_0000
      ensures old(Wired()) ==> Wired() && GapOnly()
      ensures DataCapacity(mBackQueue) <= old(DataCapacity(mBackQueue))
      ensures mTunnel.mReading ==> old(mTunnel.mReading) || mBackQueueDataSize < TCP_SESSION_BUFFER_SIZE / 2
      ensures old(Ready() && Unfinished()) ==> Orderly() && InStep()
      ensures old(Ready() && HasStuck()) ==> Orderly() && Steady()
      ensures old(history.mClean) ==> (history.mClean <==> old(Harmless()))
      ensures history.mClean ==> (AtBoundary() <==> old(AtBoundary()))
      ensures old(mLocalNext <= mLocalSeq) ==> mLocalNext <= mLocalSeq
      decreases if HasStuck() then 1 else 7
    {
      hide HandedOver, TCPSession.Window, TCPSession.Unfinished, AfterFin, Boundary, Start;
      hide TCPSession.Sane, TCPSession.Ready, TCPSession.InLine, TCPSession.Orderly, TCPSession.Poppable;
      hide TCPSession.AtBoundary, TCPSession.InOrder, TCPSession.HasStuck, TCPSession.Wired, DataCapacity;
      hide TCPSession.MayFinish;
      CleanIsChained();
      PopAcked();
      sent := FinishOrSend();
    }

    lemma CleanIsChained()
      requires Sane()
      ensures history.mClean ==> history.mChained
    {
    }

    lemma PoppableExactly(q: seq<TCPDatagram>)
      ensures forall s <- q :: Poppable(s) <==>
        s.mSeq < mLocalNext || (s.mFlag == 16 && s.mLength == 0 && s.mRetry > 0)
    {
    }

    /** The front was sent if the window admits it, or there is a gap before it, which resets. */
    twostate predicate Sent()
      reads this, history`mClean, history`mDisorder, mBackQueue, router`mData
    {
      && mBackQueue == old(mBackQueue) != []
      && (if mLocalNext < mBackQueue[0].mSeq then mState.CLOSED? && !history.mClean && RstSent()
          && history.mDisorder > old(history.mDisorder)
          else Steady() && Admits(0))
      && (mBackQueue[0].mSeq <= mLocalNext && |mBackQueue[0].packet| < Window() ==> mBackQueue[0].mBuffering)
    }

    /**
     * What a flush does: with nothing left unsent or unacknowledged it pushes the FIN when it may; otherwise the end
     * of the queue stays, a gap before the front resets, and a front is on its way if the window admits it and nothing
     * goes to the Router if not. With neither anything left nor a FIN to push nothing is sent.
     */
    twostate predicate Flushed()
      reads this, history`mClean, history`mDisorder, history`mFins, mBackQueue, router`mData
    {
      && (old(!HasStuck()) ==> if old(MayFinish()) then Finished() else Steady() && Admits(|old(mBackQueue)|))
      && (old(HasStuck()) ==>
          && 0 < |mBackQueue| <= |old(mBackQueue)| && Last(mBackQueue) == Last(old(mBackQueue))
          && (if mLocalNext < mBackQueue[0].mSeq then mState.CLOSED? && !history.mClean && RstSent()
              && history.mDisorder > old(history.mDisorder)
              else Steady() && Admits(|old(mBackQueue)| - |mBackQueue|))
          && (mBackQueue[0].mSeq <= mLocalNext && |mBackQueue[0].packet| < Window() ==> mBackQueue[0].mBuffering))
    }

    /** The remote has finished, no FIN has been sent, and no more was acknowledged than pushed. */
    predicate MayFinish()
      reads this`mState, this`mRemoteFinished, this`mLocalNext, this`mLocalSeq
    {
      mRemoteFinished && CouldFinish()
    }

    /** The FIN is due but cannot be pushed, as more was acknowledged than pushed. */
    predicate FinRefused()
      reads this`mState, this`mRemoteFinished, this`mLocalNext, this`mLocalSeq
    {
      mRemoteFinished && (mState.ESTABLISHED? || mState.CLOSE_WAIT?) && mLocalNext > mLocalSeq
    }

    /** As `FinRefused`, when the remote has just finished. */
    predicate EndRefused()
      reads this`mState, this`mLocalNext, this`mLocalSeq
    {
      (mState.ESTABLISHED? || mState.CLOSE_WAIT?) && mLocalNext > mLocalSeq
    }

    predicate CouldFinish()
      reads this`mState, this`mLocalNext, this`mLocalSeq
    {
      (mState.ESTABLISHED? || mState.CLOSE_WAIT?) && mLocalNext <= mLocalSeq
    }

    /** A flush now finds no gap: the left edge is a boundary, or there is nothing to find one before. */
    ghost predicate Harmless()
      reads this`mLocalNext, this`mLocalSeq, this`mBackQueue, mBackQueue, this`mState, this`mRemoteFinished
      reads history`mEnd
    {
      AtBoundary() || !(HasStuck() || MayFinish())
    }

    /** As `Harmless`, when the remote has just finished. */
    ghost predicate HarmlessEnd()
      reads this`mLocalNext, this`mLocalSeq, this`mBackQueue, mBackQueue, this`mState, history`mEnd
    {
      AtBoundary() || !(HasStuck() || CouldFinish())
    }

    /** Losing the tunnel sends no reset: the connection is past its own FIN, or may finish in order. */
    ghost predicate MayLose()
      reads this`mLocalNext, this`mLocalSeq, this`mBackQueue, mBackQueue, this`mState, history`mEnd
    {
      if mState in {ESTABLISHED, CLOSE_WAIT} then HarmlessEnd()
      else mState in {FIN_WAIT1, FIN_WAIT2, CLOSING, TIME_WAIT}
    }

    /** Tunnel data is refused, or finds no gap before it and no FIN. */
    ghost predicate MayPush()
      reads this`mLocalNext, this`mLocalSeq, this`mBackQueue, history`mEnd, history`mFins
    {
      mLocalNext > mLocalSeq || (AtBoundary() && history.mFins == 0)
    }

    /** One SYN has been pushed, and no FIN before the state says so. */
    ghost predicate Unfinished()
      reads this`mState, history`mSyns, history`mFins
    {
      history.mSyns == 1 && (mState.Open() ==> history.mFins == 0)
    }

    /**
     * The FIN has been pushed. When something was still unacknowledged, that push closed the session, and the state
     * goes on to LAST_ACK all the same.
     */
    twostate predicate Finished()
      reads this`mState, history`mFins, history`mClean, this`mRemoteFinished
    {
      && mRemoteFinished && old(mState.ESTABLISHED? || mState.CLOSE_WAIT?)
      && history.mFins == old(history.mFins) + 1
      && (old(mLocalNext == mLocalSeq) ==> mState == if old(mState) == ESTABLISHED then FIN_WAIT1 else LAST_ACK)
      && (old(mLocalNext < mLocalSeq) ==> mState == LAST_ACK && !history.mClean)
      && old(mLocalNext <= mLocalSeq)
    }

    /** Only after a reset may a peer that keeps to boundaries have acknowledged more than the local number. */
    lemma NeverAhead()
      requires Sane() && mLocalNext > mLocalSeq
      ensures Ready() ==> Orderly()
    {
      if Ready() && history.mClean {
        ChainMonotone(mBackQueue, history.mEnd, true);
      }
    }

    lemma NothingLeft()
      requires Sane() && mBackQueue == []
      ensures mBackQueueDataSize == 0 && (AtBoundary() <==> mLocalNext == history.mEnd)
      ensures history.mClean ==> history.mEnd == mLocalSeq == history.mSyns + |history.mStream| + history.mFins
    {
    }

    // What holds between handlers.

    /** The data in the back queue stays below the point of pause plus one read, and below it while reading. */
    ghost predicate Pressed()
      reads this`mDirect, this`mBackQueue, mTunnel`mReading
    {
      mDirect ==>
        && DataCapacity(mBackQueue) < TCP_SESSION_BUFFER_SIZE + TCP_IP_PAYLOAD_SIZE + 40
        && (mTunnel.mReading ==> DataCapacity(mBackQueue) < TCP_SESSION_BUFFER_SIZE)
    }

    /** The handshake has begun; at most one FIN, in its state; counters and tunnel agree with the queue. */
    ghost predicate Phase()
      reads this`mState, history`mSyns, history`mFins, this`mRemoteFinished, this`mGone, this`mAlive, this`mTotalRecv,
            history`mStream, this`mDirect, this`mBackQueue, mTunnel`mOpen, mTunnel`mReading
    {
      && !mState.LISTEN? && Unfinished() && history.mFins <= 1 && (history.mFins > 0 ==> mRemoteFinished)
      && (mRemoteFinished ==> mGone)
      && mTotalRecv == |history.mStream|
      && Wired() && Pressed()
    }

    /**
     * With a well-behaved peer the queue is in order, the disorder branch was never taken, and only a disconnected
     * tunnel has made the session reset the connection.
     */
    ghost predicate Settled()
      reads history`mClean, history`mChained, this`mLocalNext, history`mEnd, this`mBackQueue, history`mFins
      reads history`mStream, this`mState, this`mPeerOk, this`mGone, history`mDisorder
    {
      mPeerOk ==> Orderly() && history.mDisorder == 0 && (mGone || history.mClean)
    }

    /** As `Settled`, before a flush drops what has been acknowledged. */
    ghost predicate Poised()
      reads history`mClean, history`mChained, this`mLocalNext, history`mEnd, this`mBackQueue, history`mFins
      reads history`mStream, this`mState, this`mPeerOk, this`mGone, history`mDisorder
    {
      mPeerOk ==> Ready() && history.mDisorder == 0 && (mGone || history.mClean)
    }

    /** The forward queue is strictly sorted and counted; fresh, it is the rest of what was accepted. */
    ghost predicate Forward()
      reads this`mForwardQueue, this`mForwardQueueDataSize, this`mAccepted, this`mTaken, this`mFresh, this`mOrdered,
            this`mRemoteNext
    {
      ForwardUpTo(mRemoteNext)
    }

    ghost predicate ForwardUpTo(next: nat)
      reads this`mForwardQueue, this`mForwardQueueDataSize, this`mAccepted, this`mTaken, this`mFresh, this`mOrdered
    {
      && Sorted(mForwardQueue) && mForwardQueueDataSize == DataSum(mForwardQueue)
      && (mOrdered ==> mTaken + Flatten(mForwardQueue) == mAccepted)
      && (mFresh ==> mOrdered && next == 1 + |mAccepted|)
      && (mFresh ==> Below(mForwardQueue, next))
    }

    /** With a well-behaved peer exactly what the tunnel delivered was pushed. */
    ghost predicate Relayed()
      reads this`mPeerOk, this`mReadOff, history`mStream
    {
      mPeerOk ==> history.mStream == mReadOff
    }

    ghost predicate Valid()
      reads this, history, mTunnel, mBackQueue, mMine, router, router.born, router.mData
    {
      && Sane() && Phase() && Settled() && Forward() && Relayed()
      && mRemoteSeqBase < 0x1_0000_0000 && mLocalSeqBase < 0x1_0000_0000
    }

    /** What a handler does: the state moves forwards only, and a session once closed is never alive again. */
    twostate predicate Stepped()
      reads this`mMine, this`mAlive, this`mSendWindow, mTunnel`mOpen, history`mHanded, history`mCarrying
      reads history`mClean, history`mDisorder, this`mState, this`mPeerOk, router`born, router`mData
    {
      SteppedUpTo(Window())
    }

    twostate predicate SteppedUpTo(limit: nat)
      reads this`mMine, this`mAlive, mTunnel`mOpen, history`mHanded, history`mCarrying
      reads history`mClean, history`mDisorder, this`mState, this`mPeerOk, router`born, router`mData
    {
      GrownUpTo(limit) && (mPeerOk ==> old(mPeerOk)) && old(mState).Leads(mState)
    }

    method Flush()
      requires Sane() && Phase() && Poised()
      modifies this`mBackQueue, this`mBackQueueDataSize, this`mTotalBack, this`mLocalSeq, this`mState, this`mAlive
      modifies this`mMine, history
      modifies mTunnel, router`mData, router`mWriteEvent, router`born, mMine
      ensures Sane() && Phase() && Settled() && Stepped() && Flushed() && history.mStream == old(history.mStream)
      ensures old(!HasStuck() && !MayFinish()) ==> mState == old(mState) && mBackQueue == []
      ensures mState in {old(mState), CLOSED} || (mRemoteFinished && mState in {FIN_WAIT1, LAST_ACK})
      ensures old(history.mClean) ==> (history.mClean <==> old(Harmless()))
      ensures GapOnly() && Reopened()
      ensures mBackQueueDataSize <= old(mBackQueueDataSize) || mBackQueueDataSize < 0x2_0000
      ensures history.mClean ==> (AtBoundary() <==> old(AtBoundary()))
    {
      hide TCPSession.Window, HandedOver;
      hide TCPSession.Sane, TCPSession.Ready, TCPSession.Orderly, TCPSession.Wired, TCPSession.HasStuck, DataCapacity;
      hide TCPSession.AtBoundary, TCPSession.Harmless;
      var sent := FlushBackQueue();
      CapacityAtMost();
    }

    lemma CapacityAtMost()
      requires Sane()
      ensures DataCapacity(mBackQueue) <= mBackQueueDataSize
    {
      DataCapacityBound(mBackQueue);
    }

    /** A pure acknowledgement. */
    method PushAck() returns (r: int)
      requires Sane() && Phase() && Poised()
      modifies this`mBackQueue, this`mBackQueueDataSize, this`mTotalBack, this`mLocalSeq, this`mState, this`mAlive
      modifies this`mMine, history
      modifies mTunnel, router`mData, router`mWriteEvent, router`born, mMine
      ensures Sane() && Phase() && Settled() && Stepped()
      ensures history.mStream == old(history.mStream)
      ensures mPeerOk ==> mState == old(mState)
      ensures history.mFins == old(history.mFins) && (mState == old(mState) || mState.CLOSED?)
      ensures r < 0 ==> mState == old(mState)
      ensures r == if old(mLocalNext > mLocalSeq) then -1 else 0
      ensures r >= 0 ==> Pushed(ACK, [])
      ensures r < 0 ==> unchanged(this) && unchanged(history) && HasStuck() == old(HasStuck())
      ensures history.mClean ==> (AtBoundary() <==> old(AtBoundary()))
      ensures GapOnly() && (r >= 0 ==> Resumed() && mLocalNext <= mLocalSeq)
      ensures r < 0 ==> unchanged(mTunnel)
      ensures history.mDisorder == old(history.mDisorder) ==> mState == old(mState)
      ensures r >= 0 && old(history.mClean) ==> (history.mClean <==> old(AtBoundary()))
    {
      hide TCPSession.Window, HandedOver;
      hide TCPSession.Sane, TCPSession.Ready, TCPSession.Orderly, TCPSession.Wired, TCPSession.HasStuck, DataCapacity;
      hide TCPSession.AtBoundary;
      r := PushInBackQueue(ACK, []);
      CapacityAtMost();
    }

    // The handlers.

    /** Nothing has been built or sent. */
    ghost predicate Blank()
      reads this`mBackQueue, this`mBackQueueDataSize, this`mTotalBack, this`mTotalRecv, history`mStream, history`mSyns,
            history`mFins, this`mMine, history`mHanded, history`mClean, history`mEnd, history`mChained,
            history`mCarrying
    {
      && mBackQueue == [] && mBackQueueDataSize == 0 && mTotalBack == 0 && mTotalRecv == 0
      && history.mStream == [] && history.mSyns == history.mFins == 0 && mMine == {} && history.mHanded == []
      && history.mClean
      && history.mEnd == 0 && history.mChained && history.mCarrying == {}
    }

    /** A session that has just been created. */
    ghost predicate New()
      reads this, history, mTunnel
    {
      && Blank() && mState.LISTEN? && history.mDisorder == 0 && mPeerOk && mDirect && mAlive && !mRemoteFinished
      && !mGone
      && mForwardQueue == [] && mForwardQueueDataSize == 0 && mAccepted == [] && mTaken == [] && mFresh && mOrdered
      && mReadOff == [] && mTunnel.mReading && mTunnel.mOpen
    }

    lemma BlankIsSane()
      requires Blank() && router.Valid() && mLocalSeq == mLocalNext == 0
      ensures Sane() && Ready() && DataCapacity(mBackQueue) == 0
    {
    }

    lemma NothingAccepted()
      requires mForwardQueue == [] && mForwardQueueDataSize == 0 && mAccepted == [] && mTaken == []
      requires mFresh && mOrdered && mRemoteNext == 1
      ensures Forward()
    {
    }

    /** The numbers a session starts with. */
    method StartNumbers(p: Incoming)
      requires Blank()
      modifies this`mWindowScale, this`mSendWindow, this`mRemoteSeqBase, this`mLocalSeqBase, this`mLocalSeq
      modifies this`mLocalNext, this`mRemoteNext
      ensures mLocalSeq == mLocalNext == 0 && mRemoteNext == 1 && mRemoteSeqBase == p.seqNo
      ensures mWindowScale == p.windowScale && mSendWindow == Scaled(p.window, p.windowScale)
      ensures mLocalSeqBase < 0x8000_0000
    {
      mWindowScale := p.windowScale;
      mSendWindow := Scaled(p.window, mWindowScale);
      mRemoteSeqBase := p.seqNo;
      var base: nat :| base < 0x8000_0000;
      mLocalSeqBase := base;
      mLocalSeq, mLocalNext := 0, 0;
      mRemoteNext := 1;
    }

    lemma AllNumbered()
      requires Sane() && history.mClean
      ensures mLocalSeq == history.mSyns + |history.mStream| + history.mFins
    {
    }

    /** Answers a SYN. */
    method Answer()
      requires Sane() && Ready() && Wired() && mState.LISTEN? && history.mClean && history.mDisorder == 0 && mPeerOk
      requires history.mSyns == history.mFins == 0 && history.mStream == [] && mTotalRecv == 0
        && DataCapacity(mBackQueue) == 0
      requires mLocalNext <= mLocalSeq && !mRemoteFinished && !mGone
      modifies this`mBackQueue, this`mBackQueueDataSize, this`mTotalBack, this`mLocalSeq, this`mState, this`mAlive
      modifies this`mMine, history
      modifies mTunnel, router`mData, router`mWriteEvent, router`born, mMine
      ensures Sane() && Phase() && Settled() && mState.SYN_RCVED? && history.mClean && Grown() && Pushed(SYN + ACK, [])
      ensures history.mStream == [] && mLocalSeq == 1
    {
      hide TCPSession.Window, HandedOver;
      hide TCPSession.Sane, Router.Valid, TCPSession.AtBoundary, TCPSession.InOrder, TCPSession.HasStuck, DataCapacity;
      var r := PushInBackQueue(SYN + ACK, []);
      if r >= 0 {
        SwitchState(SYN_RCVED);
      }
      CapacityAtMost();
      AllNumbered();
    }

    /** The SYN that created the session. */
    method Handshake(p: Incoming)
      requires New() && router.Valid() && p.seqNo < 0x1_0000_0000
      modifies this, history, mTunnel, router`mData, router`mWriteEvent, router`born
      ensures Valid() && mState.SYN_RCVED? && mPeerOk && history.mClean
      ensures mRemoteNext == 1 && mRemoteSeqBase == p.seqNo && Grown() && mWindowScale == p.windowScale
      ensures mSendWindow == Scaled(p.window, p.windowScale)
      ensures mLocalSeq == 1 && mLocalNext == 0 && mLocalSeqBase < 0x8000_0000 && !mGone && history.mStream == []
      ensures mBackQueue != [] && var s := Last(mBackQueue); s.mFlag == SYN + ACK && s.mSeq == 0 && s.mAck == 1
    {
      hide TCPSession.Window, HandedOver;
      hide TCPSession.Sane, Router.Valid, TCPSession.Ready, TCPSession.Phase, TCPSession.Settled, DataCapacity;
      hide TCPSession.Forward, Payload;
      StartNumbers(p);
      BlankIsSane();
      NothingAccepted();
      Answer();
    }

    /** A repeated SYN only flushes. */
    method OnReceiveSYN()
      requires Sane() && Phase() && Settled()
      modifies this`mBackQueue, this`mBackQueueDataSize, this`mTotalBack, this`mLocalSeq, this`mState, this`mAlive
      modifies this`mMine, history
      modifies mTunnel, router`mData, router`mWriteEvent, router`born, mMine
      ensures Sane() && Phase() && Settled() && Stepped() && Flushed()
      ensures history.mStream == old(history.mStream)
      ensures GapOnly() && Reopened()
      ensures old(history.mClean) ==> (history.mClean <==> old(Harmless()))
    {
      hide TCPSession.Window, HandedOver;
      hide TCPSession.Sane, TCPSession.Phase, TCPSession.Settled, TCPSession.Poised;
      SettledIsPoised();
      Flush();
    }

    /** Moves the left edge; a well-behaved peer moves it to a boundary. */
    method TakeAck(ack: nat)
      requires Sane() && Phase() && Settled()
      modifies this`mLocalNext, this`mPeerOk
      ensures Sane() && Phase() && Poised()
      ensures mLocalNext == if old(mLocalNext) <= ack then ack else old(mLocalNext)
      ensures mPeerOk == (old(mPeerOk) && (ack < old(mLocalNext) || Boundary(mBackQueue, history.mEnd, ack)))
      ensures (AtBoundary() <==> Boundary(mBackQueue, history.mEnd, mLocalNext))
        && (HasStuck() <==> Remains(mLocalNext))
    {
      hide TCPSession.Sane, TCPSession.Phase;
      if mLocalNext <= ack {
        mPeerOk := mPeerOk && Boundary(mBackQueue, history.mEnd, ack);
        mLocalNext := ack;
      }
    }

    /** A change of state along the diagram. */
    method Move(state: TcpState)
      requires Phase() && Settled()
      requires !state.LISTEN? && (state.Open() ==> history.mFins == 0) && (mPeerOk ==> mState.Leads(state))
      modifies this`mState, this`mAlive, mTunnel
      ensures Phase() && Settled() && mState == state && (mAlive ==> old(mAlive))
        && (mTunnel.mOpen ==> old(mTunnel.mOpen))
      ensures state != CLOSED ==> unchanged(mTunnel)
    {
      hide TCPSession.InOrder, DataCapacity;
      SwitchState(state);
    }

    method OnReceiveRST()
      requires Sane() && Phase() && Settled() && Forward()
      modifies this`mState, this`mAlive, mTunnel
      ensures Sane() && Phase() && Settled() && Forward() && Stepped() && mState.CLOSED?
    {
      hide TCPSession.Window, HandedOver;
      hide TCPSession.Sane, TCPSession.Phase, TCPSession.Settled, TCPSession.Forward;
      MineIsBorn();
      Move(CLOSED);
    }

    /** The peer's FIN takes the next number, wherever it lies. */
    method TakeFin(seqNo: nat)
      requires Forward()
      modifies this`mRemoteNext, this`mFresh
      ensures Forward() && mRemoteNext == seqNo + 1 && !mFresh
    {
      hide Sorted, DataSum, Flatten;
      mRemoteNext := seqNo + 1;
      mFresh := false;
    }

    method OnReceiveFIN(seqNo: nat, ack: nat)
      requires Sane() && Phase() && Settled() && Forward()
      modifies this`mLocalNext, this`mPeerOk, this`mRemoteNext, this`mFresh
      modifies this`mBackQueue, this`mBackQueueDataSize, this`mTotalBack, this`mLocalSeq, this`mState, this`mAlive
      modifies this`mMine, history
      modifies mTunnel, router`mData, router`mWriteEvent, router`born, mMine
      ensures Sane() && Phase() && Settled() && Forward() && Stepped() && TookFin(seqNo, ack)
      ensures history.mStream == old(history.mStream)
      ensures GapOnly()
      ensures old(history.mClean) ==> (history.mClean <==> old(SurvivesFin(ack)))
      ensures mPeerOk == old(mPeerOk && (ack < mLocalNext || Boundary(mBackQueue, history.mEnd, ack)))
    {
      hide TCPSession.Window, HandedOver;
      hide TCPSession.Sane, TCPSession.Phase, TCPSession.Settled, TCPSession.Poised, TCPSession.Forward;
      hide TCPSession.AtBoundary, TCPSession.HasStuck, TcpState.Leads, Boundary, Payload, TCPSession.Remains;
      TakeAck(ack);
      TakeFin(seqNo);
      AnswerFin(ack);
    }

    /** Acknowledges the peer's FIN and changes the state, unless more was acknowledged than ever sent. */
    method AnswerFin(ack: nat)
      requires Sane() && Phase() && Poised() && Forward()
      modifies this`mBackQueue, this`mBackQueueDataSize, this`mTotalBack, this`mLocalSeq, this`mState, this`mAlive
      modifies this`mMine, history
      modifies mTunnel, router`mData, router`mWriteEvent, router`born, mMine
      ensures Sane() && Phase() && Settled() && Forward() && Stepped() && history.mStream == old(history.mStream)
      ensures old(history.mClean) ==> (history.mClean <==> old(AtBoundary() || mLocalNext > mLocalSeq))
      ensures GapOnly() && (if old(mLocalNext <= mLocalSeq) then Resumed() else unchanged(mTunnel))
      ensures old(mLocalNext <= mLocalSeq) ==>
        && Pushed(ACK, [])
        && (old(mState) in {ESTABLISHED, FIN_WAIT1, FIN_WAIT2} ==>
            mState == AfterPeerFin(old(mState), ack == mLocalNext))
    {
      hide TCPSession.Window, HandedOver;
      hide TCPSession.Sane, TCPSession.Phase, TCPSession.Settled, TCPSession.Poised, TCPSession.Forward;
      hide TCPSession.AtBoundary, TcpState.Leads;
      NoFinWhileOpen();
      LeadsSelf(mState);
      var state := mState;
      var r := PushAck();
      if r >= 0 {
        OnFinAnswered(state, ack);
      }
    }

    /** The change of state the peer's FIN brings to a session that was in `state`. */
    method OnFinAnswered(state: TcpState, ack: nat)
      requires Phase() && Settled() && mState in {state, CLOSED} && (mPeerOk ==> mState == state)
      requires state == ESTABLISHED ==> history.mFins == 0
      modifies this`mState, this`mAlive, mTunnel
      ensures Phase() && Settled() && state.Leads(mState)
      ensures (mAlive ==> old(mAlive)) && unchanged(mTunnel)
      ensures mState == if state in {ESTABLISHED, FIN_WAIT1, FIN_WAIT2} then AfterPeerFin(state, ack == mLocalNext)
        else old(mState)
    {
      hide TCPSession.Phase, TCPSession.Settled;
      if state == ESTABLISHED {
        Move(CLOSE_WAIT);
      } else if state == FIN_WAIT1 {
        Move(if ack == mLocalNext then TIME_WAIT else CLOSING);
      } else if state == FIN_WAIT2 {
        Move(TIME_WAIT);
      }
    }

    lemma ReadWhileOpen()
      requires Phase()
      ensures mTunnel.mReading ==> mTunnel.mOpen
    {
    }

    lemma NoFinWhileOpen()
      requires Phase()
      ensures mState.Open() ==> history.mFins == 0
    {
    }

    /** Nothing was accepted. */
    twostate predicate Kept()
      reads this`mAccepted
    {
      mAccepted == old(mAccepted)
    }

    /** The payload was accepted after everything before it. */
    twostate predicate Extended(payload: seq<byte>)
      reads this`mAccepted, this`mFresh
    {
      old(mFresh) && mFresh && mAccepted == old(mAccepted) + payload
    }

    /** A payload with this number waits for the tunnel. */
    ghost predicate Waits(seqNo: nat)
      reads this`mForwardQueue
    {
      exists p <- mForwardQueue :: p.seqNo == seqNo
    }

    /** A payload that is acknowledged at once: a replay, or one queued while established. */
    ghost predicate Replies(p: Incoming, seqNo: nat)
      reads this`mState, this`mRemoteNext, this`mForwardQueue
    {
      p.payload != [] &&
        if seqNo < mRemoteNext then mState in {SYN_RCVED, ESTABLISHED} else mState == ESTABLISHED && !Waits(seqNo)
    }

    /** An acknowledgement that is not old lets the FIN follow when nothing is left. */
    ghost predicate FinishesNext()
      reads this`mState, this`mRemoteFinished
    {
      mRemoteFinished && AfterAck(mState) in {ESTABLISHED, CLOSE_WAIT}
    }

    /** Queues fresh payload in order of its number, once. */
    method InsertPending(seqNo: nat, p: Incoming) returns (l: nat)
      requires Forward() && p.payload != [] && seqNo >= mRemoteNext
      modifies this`mForwardQueue, this`mForwardQueueDataSize, this`mAccepted, this`mFresh, this`mOrdered
      modifies mTunnel`mWriting
      ensures ForwardUpTo(mRemoteNext + l) && (l > 0 <==> !old(Waits(seqNo)))
      ensures mTunnel.mWriting == (old(mTunnel.mWriting) || (l > 0 && mTunnel.mOpen))
      ensures mOrdered ==> old(mOrdered) && (Kept() || (seqNo == mRemoteNext && Extended(p.payload)))
      ensures old(mFresh) && seqNo == mRemoteNext ==>
        mFresh && l == |p.payload| && mAccepted == old(mAccepted) + p.payload
    {
      hide DataSum, Flatten;
      var i := FindNotSmaller(mForwardQueue, seqNo);
      if i < |mForwardQueue| && mForwardQueue[i].seqNo == seqNo {
        return 0;
      }
      var datagram := Pending(seqNo, p.flag, p.payload);
      SortedInsert(mForwardQueue, i, datagram);
      ForwardInsert(mForwardQueue, i, datagram);
      mFresh := mFresh && seqNo == mRemoteNext;
      mOrdered := mFresh;
      mAccepted := mAccepted + p.payload;
      mForwardQueue := mForwardQueue[..i] + [datagram] + mForwardQueue[i..];
      mForwardQueueDataSize := mForwardQueueDataSize + |p.payload|;
      if mForwardQueueDataSize > 0 {
        mTunnel.RequestSendData();
      }
      return |p.payload|;
    }

    /**
     * A replay is acknowledged unless more was acknowledged than ever sent, which resets exactly when the left edge is
     * no boundary; any other payload leaves the back path alone.
     */
    twostate predicate Replied(p: Incoming, seqNo: nat)
      reads this`mBackQueue, this`mLocalSeq, this`mLocalNext, this`mState, mBackQueue
      reads history`mClean, history`mEnd
    {
      && (history.mClean ==> (AtBoundary() <==> old(AtBoundary())))
      && if p.payload != [] && seqNo < old(mRemoteNext) && old(mLocalNext <= mLocalSeq)
         then old(history.mClean) ==> (history.mClean <==> old(AtBoundary()))
         else Untouched()
    }

    twostate predicate Untouched()
      reads this`mBackQueue, this`mLocalSeq, this`mLocalNext, this`mState, mBackQueue
      reads history`mClean, history`mEnd
    {
      && mBackQueue == old(mBackQueue) && mLocalSeq == old(mLocalSeq) && mState == old(mState)
      && history.mClean == old(history.mClean)
      && AtBoundary() == old(AtBoundary()) && HasStuck() == old(HasStuck())
    }

    /** Queues the payload of a packet, or answers a replay. */
    method EnqueueIfNeed(seqNo: nat, p: Incoming) returns (l: nat)
      requires Sane() && Phase() && Poised() && Forward()
      modifies this`mForwardQueue, this`mForwardQueueDataSize, this`mAccepted, this`mFresh, this`mOrdered
      modifies this`mBackQueue, this`mBackQueueDataSize, this`mTotalBack, this`mLocalSeq, this`mState, this`mAlive
      modifies this`mMine, history
      modifies mTunnel, router`mData, router`mWriteEvent, router`born, mMine
      ensures Sane() && Phase() && Poised() && ForwardUpTo(mRemoteNext + l) && Stepped()
      ensures GapOnly()
      ensures history.mStream == old(history.mStream)
      ensures mState == old(mState) || mState.CLOSED?
      ensures l > 0 <==> p.payload != [] && seqNo >= mRemoteNext && !old(Waits(seqNo))
      ensures Replied(p, seqNo)
      ensures InTune(old(Setting(mState)), l > 0) && (l > 0 ==> mTunnel.mReading == old(mTunnel.mReading))
      ensures history.mDisorder == old(history.mDisorder) ==> mState == old(mState)
      ensures old(mLocalNext <= mLocalSeq) ==> mLocalNext <= mLocalSeq
      ensures old(mFresh) && seqNo <= mRemoteNext ==> mFresh
      ensures old(mFresh) && seqNo == mRemoteNext ==> l == |p.payload| && mAccepted == old(mAccepted) + p.payload
      ensures seqNo < mRemoteNext ==> l == 0 && mAccepted == old(mAccepted)
      ensures mOrdered ==> old(mOrdered) && (Kept() || (seqNo == mRemoteNext && Extended(p.payload)))
    {
      hide TCPSession.Window, HandedOver;
      hide TCPSession.Sane, TCPSession.Phase, TCPSession.Settled, TCPSession.Poised, TCPSession.ForwardUpTo;
      hide TCPSession.AtBoundary, TCPSession.HasStuck, TCPSession.Waits;
      MineIsBorn();
      if p.payload == [] {
        return 0;
      }
      if seqNo < mRemoteNext {
        var r := PushAck();
        SettledIsPoised();
        return 0;
      }
      l := InsertPending(seqNo, p);
    }

    /** What a reset has not touched has nothing queued past the local number. */
    lemma StuckIsSent()
      requires Sane()
      ensures history.mClean && HasStuck() ==> mLocalNext <= mLocalSeq
    {
      if history.mClean {
        ChainMonotone(mBackQueue, history.mEnd, true);
        ChainBelow(mBackQueue, history.mEnd);
      }
    }

    lemma SettledIsPoised()
      ensures Settled() ==> Poised()
    {
    }

    /** Queues a payload and moves what is expected next past it. */
    method ReceivePayload(seqNo: nat, p: Incoming) returns (l: nat)
      requires Sane() && Phase() && Poised() && Forward()
      modifies this`mForwardQueue, this`mForwardQueueDataSize, this`mAccepted, this`mFresh, this`mOrdered
      modifies this`mRemoteNext
      modifies this`mBackQueue, this`mBackQueueDataSize, this`mTotalBack, this`mLocalSeq, this`mState, this`mAlive
      modifies this`mMine, history
      modifies mTunnel, router`mData, router`mWriteEvent, router`born, mMine
      ensures Sane() && Phase() && Poised() && Forward() && Stepped()
      ensures GapOnly()
      ensures history.mStream == old(history.mStream)
      ensures mRemoteNext == old(mRemoteNext) + l
      ensures old(mFresh) && seqNo <= old(mRemoteNext) ==> mFresh
      ensures old(mFresh) && seqNo == old(mRemoteNext) ==> l == |p.payload| && mAccepted == old(mAccepted) + p.payload
      ensures seqNo < old(mRemoteNext) ==> l == 0 && mAccepted == old(mAccepted)
      ensures mState == old(mState) || mState.CLOSED?
      ensures l > 0 <==> p.payload != [] && seqNo >= old(mRemoteNext) && !old(Waits(seqNo))
      ensures Replied(p, seqNo)
      ensures InTune(old(Setting(mState)), l > 0) && (l > 0 ==> mTunnel.mReading == old(mTunnel.mReading))
      ensures history.mDisorder == old(history.mDisorder) ==> mState == old(mState)
      ensures old(mLocalNext <= mLocalSeq) ==> mLocalNext <= mLocalSeq
      ensures mOrdered ==> old(mOrdered) && (Kept() || (seqNo == old(mRemoteNext) && Extended(p.payload)))
    {
      hide TCPSession.Window, HandedOver;
      hide TCPSession.Sane, TCPSession.Phase, TCPSession.Settled, TCPSession.Poised, TCPSession.ForwardUpTo;
      hide TCPSession.Replied, TCPSession.Waits;
      l := EnqueueIfNeed(seqNo, p);
      mRemoteNext := mRemoteNext + l;
    }

    /** The change of state an acknowledgement that is not old brings. */
    method OnAcknowledged()
      requires Phase() && Poised()
      modifies this`mState, this`mAlive, mTunnel
      ensures Phase() && Poised() && old(mState).Leads(mState)
      ensures (mAlive ==> old(mAlive)) && (mTunnel.mOpen ==> old(mTunnel.mOpen))
      ensures old(mState) != LAST_ACK ==> unchanged(mTunnel)
      ensures mState == AfterAck(old(mState))
    {
      hide TCPSession.Phase, TCPSession.Poised;
      NoFinWhileOpen();
      if mState == SYN_RCVED {
        MoveOn(ESTABLISHED);
      } else if mState == FIN_WAIT1 {
        MoveOn(FIN_WAIT2);
      } else if mState == LAST_ACK {
        MoveOn(CLOSED);
      } else if mState == CLOSING {
        MoveOn(TIME_WAIT);
      }
    }

    /** While the order holds, nothing is accepted but the payload that continues what was accepted before. */
    twostate predicate Took(p: Incoming, seqNo: nat)
      reads this`mAccepted, this`mFresh, this`mOrdered
    {
      mOrdered ==> old(mOrdered) && (Kept() || (seqNo == old(mRemoteNext) && Extended(p.payload)))
    }

    /**
     * A replay changes nothing, the payload expected next is accepted whole while the connection takes payload, and
     * no other payload extends what was accepted in order.
     */
    twostate predicate Filed(p: Incoming, seqNo: nat)
      reads this`mAccepted, this`mFresh, this`mOrdered, this`mRemoteNext
    {
      && (old(mFresh) && seqNo <= old(mRemoteNext) ==> mFresh)
      && (old(mFresh) && seqNo == old(mRemoteNext) && old(mState) in {SYN_RCVED, ESTABLISHED} ==>
          mAccepted == old(mAccepted) + p.payload && mRemoteNext == old(mRemoteNext) + |p.payload|)
      && (seqNo < old(mRemoteNext) ==> mAccepted == old(mAccepted) && mRemoteNext == old(mRemoteNext))
      && Took(p, seqNo)
    }

    /** The part of `accept` after an acknowledgement that is not old has moved the left edge. */
    method OnReceiveAck(seqNo: nat, p: Incoming)
      requires Sane() && Phase() && Poised() && Forward()
      modifies this`mForwardQueue, this`mForwardQueueDataSize, this`mAccepted, this`mFresh, this`mOrdered
      modifies this`mRemoteNext
      modifies this`mBackQueue, this`mBackQueueDataSize, this`mTotalBack, this`mLocalSeq, this`mState, this`mAlive
      modifies this`mMine, history
      modifies mTunnel, router`mData, router`mWriteEvent, router`born, mMine
      ensures Sane() && Phase() && Settled() && Forward() && Stepped()
      ensures history.mStream == old(history.mStream)
      ensures Filed(p, seqNo) && (history.mClean ==> (AtBoundary() <==> old(AtBoundary())))
      ensures old(mLocalNext <= mLocalSeq && mState != LAST_ACK) ==>
        Tuned(old(Setting(AfterAck(mState))), mRemoteNext > old(mRemoteNext))
      ensures p.payload == [] && old(!HasStuck() && !FinishesNext()) ==>
        mState == AfterAck(old(mState)) && mBackQueue == []
      ensures old(mFresh) && seqNo == old(mRemoteNext) && old(mState) == ESTABLISHED && p.payload != [] ==>
        (old(mLocalNext <= mLocalSeq) ==> Pushed(ACK, []))
      ensures mState in {AfterAck(old(mState)), CLOSED} || (mRemoteFinished && mState in {FIN_WAIT1, LAST_ACK})
      ensures GapOnly()
      ensures old(history.mClean) ==> (history.mClean <==> old(AtBoundary() ||
        !(HasStuck() || (mLocalNext <= mLocalSeq && (Replies(p, seqNo) || FinishesNext())))))
    {
      hide HandedOver, TCPSession.InTune, TCPSession.Tuned, TCPSession.Window;
      hide TCPSession.AtBoundary, TCPSession.HasStuck, TcpState.Leads, Payload, TCPSession.Waits;
      hide TCPSession.Sane, TCPSession.Phase, TCPSession.Settled, TCPSession.Poised, TCPSession.Forward;
      hide TCPSession.Flushed, TCPSession.Filed;
      StuckIsSent();
      ghost var from := Setting(AfterAck(mState));
      var acknowledge := OnAckPayload(seqNo, p);
      ghost var was := mState;
      ghost var q, handed := router.mData, history.mHanded;
      Respond(acknowledge, from, mRemoteNext > old(mRemoteNext));
      HandedOn(old(router.mData), old(history.mHanded), q, handed, router.mData, history.mHanded,
               this, Window(), Window());
      LeadsForward(old(mState), was, mState);
    }

    /** The state and the payload; whether the payload is to be acknowledged at once. */
    method OnAckPayload(seqNo: nat, p: Incoming) returns (acknowledge: bool)
      requires Sane() && Phase() && Poised() && Forward()
      modifies this`mForwardQueue, this`mForwardQueueDataSize, this`mAccepted, this`mFresh, this`mOrdered
      modifies this`mRemoteNext
      modifies this`mBackQueue, this`mBackQueueDataSize, this`mTotalBack, this`mLocalSeq, this`mState, this`mAlive
      modifies this`mMine, history
      modifies mTunnel, router`mData, router`mWriteEvent, router`born, mMine
      ensures Sane() && Phase() && Poised() && Forward() && Stepped() && history.mStream == old(history.mStream)
      ensures GapOnly()
      ensures Filed(p, seqNo)
      ensures old(mFresh) && seqNo == old(mRemoteNext) && old(mState) == ESTABLISHED && p.payload != [] ==>
        acknowledge && mLocalSeq == old(mLocalSeq)
      ensures mState in {AfterAck(old(mState)), CLOSED}
      ensures old(mState) != LAST_ACK ==> InTune(old(Setting(AfterAck(mState))), mRemoteNext > old(mRemoteNext))
      ensures old(mState) != LAST_ACK && history.mDisorder == old(history.mDisorder) ==> mState == AfterAck(old(mState))
      ensures old(mLocalNext <= mLocalSeq) ==> mLocalNext <= mLocalSeq
      ensures acknowledge ==> mTunnel.mReading == old(mTunnel.mReading)
      ensures acknowledge <==> old(Replies(p, seqNo)) && seqNo >= old(mRemoteNext)
      ensures history.mClean ==> (AtBoundary() <==> old(AtBoundary()))
      ensures var replayed := old(Replies(p, seqNo) && mLocalNext <= mLocalSeq && seqNo < mRemoteNext);
        && (replayed && old(history.mClean) ==> (history.mClean <==> old(AtBoundary())))
        && (!replayed ==>
            && mState == AfterAck(old(mState)) && mBackQueue == old(mBackQueue) && mLocalSeq == old(mLocalSeq)
            && history.mClean == old(history.mClean)
            && AtBoundary() == old(AtBoundary()) && HasStuck() == old(HasStuck()))
    {
      hide HandedOver, TCPSession.InTune, TCPSession.Window, TcpState.Leads;
      hide TCPSession.AtBoundary, TCPSession.HasStuck, TCPSession.Waits, TCPSession.Setting, Boundary, Payload;
      hide TCPSession.Sane, TCPSession.Phase, TCPSession.Settled, TCPSession.Poised, TCPSession.Forward;
      MineIsBorn();
      var state := mState;
      OnAcknowledged();
      InTuneNow(mState);
      ghost var was := mState;
      LeadsSelf(mState);
      var l := 0;
      if state == SYN_RCVED || state == ESTABLISHED {
        l := ReceivePayload(seqNo, p);
      }
      LeadsForward(old(mState), was, mState);
      // Payload that completes the handshake is not acknowledged at once.
      acknowledge := state == ESTABLISHED && l > 0;
    }

    /** Acknowledges, which flushes as well, or only flushes. */
    method Respond(acknowledge: bool, ghost from: Tuning, ghost accepted: bool)
      requires Sane() && Phase() && Poised()
      modifies this`mBackQueue, this`mBackQueueDataSize, this`mTotalBack, this`mLocalSeq, this`mState, this`mAlive
      modifies this`mMine, history
      modifies mTunnel, router`mData, router`mWriteEvent, router`born, mMine
      ensures Sane() && Phase() && Settled() && Stepped()
      ensures history.mStream == old(history.mStream)
      ensures mState in {old(mState), CLOSED} || (mRemoteFinished && mState in {FIN_WAIT1, LAST_ACK})
      ensures history.mClean ==> (AtBoundary() <==> old(AtBoundary()))
      ensures !acknowledge && old(!HasStuck() && !MayFinish()) ==> mState == old(mState) && mBackQueue == []
      ensures old(mLocalNext <= mLocalSeq && InTune(from, accepted) && OnTrack(from)) ==>
        !acknowledge || old(mTunnel.mReading) == from.reading ==> Tuned(from, accepted)
      ensures if acknowledge then old(mLocalNext <= mLocalSeq) ==> Pushed(ACK, []) else Flushed()
      ensures GapOnly()
      ensures old(history.mClean) ==> (history.mClean <==>
        old(if acknowledge then AtBoundary() || mLocalNext > mLocalSeq else Harmless()))
    {
      hide TCPSession.Window, HandedOver;
      hide TCPSession.Sane, TCPSession.Phase, TCPSession.Settled, TCPSession.Poised;
      hide TCPSession.AtBoundary, TCPSession.Harmless, TCPSession.Flushed;
      if acknowledge {
        var r := PushAck();
      } else {
        Flush();
        ReadWhileOpen();
      }
    }

    /** As `Move`, before the flush. */
    method MoveOn(state: TcpState)
      requires Phase() && Poised()
      requires !state.LISTEN? && (state.Open() ==> history.mFins == 0) && (mPeerOk ==> mState.Leads(state))
      modifies this`mState, this`mAlive, mTunnel
      ensures Phase() && Poised() && mState == state && (mAlive ==> old(mAlive))
        && (mTunnel.mOpen ==> old(mTunnel.mOpen))
      ensures state != CLOSED ==> unchanged(mTunnel)
    {
      hide TCPSession.AtBoundary, DataCapacity;
      SwitchState(state);
    }

    /** A peer keeps to boundaries until an acknowledgement that is not old is at none. */
    twostate predicate Judged(p: Incoming, ack: nat)
      reads this`mPeerOk
    {
      mPeerOk ==
        old(mPeerOk && (p.syn || (p.rst && !p.fin) || ack < mLocalNext || Boundary(mBackQueue, history.mEnd, ack)))
    }

    /** The forward path is left alone. */
    twostate predicate Passive()
      reads this`mAccepted, this`mTaken, this`mFresh, this`mOrdered, this`mForwardQueue, this`mRemoteNext
    {
      && mAccepted == old(mAccepted) && mTaken == old(mTaken) && mForwardQueue == old(mForwardQueue)
      && mFresh == old(mFresh) && mOrdered == old(mOrdered) && mRemoteNext == old(mRemoteNext)
    }

    /** What `accept` makes of a SYN, a FIN, an RST, an old acknowledgement and a new one. */
    twostate predicate TookPacket(p: Incoming, seqNo: nat, ack: nat)
      reads this, mTunnel, history`mClean, history`mDisorder, history`mFins, history`mEnd, mBackQueue, router`mData
    {
      if p.syn then Passive() && mLocalNext == old(mLocalNext) && Flushed()
      else if p.fin then TookFin(seqNo, ack)
      else if p.rst then
        && Passive() && mState == CLOSED && mLocalNext == old(mLocalNext) && mLocalSeq == old(mLocalSeq)
        && mBackQueue == old(mBackQueue) && history.mClean == old(history.mClean)
      else TookSegment(p, seqNo, ack)
    }

    /** A packet sends no first reset: it finds no gap before anything queued, or queued to answer it. */
    ghost predicate SurvivesPacket(p: Incoming, seqNo: nat, ack: nat)
      reads this, history`mEnd, mBackQueue
    {
      if p.syn then Harmless()
      else if p.fin then SurvivesFin(ack)
      else p.rst || SurvivesSegment(p, seqNo, ack)
    }

    ghost predicate SurvivesFin(ack: nat)
      reads this, history`mEnd
    {
      var left := if mLocalNext <= ack then ack else mLocalNext;
      left > mLocalSeq || Boundary(mBackQueue, history.mEnd, left)
    }

    ghost predicate SurvivesSegment(p: Incoming, seqNo: nat, ack: nat)
      reads this, history`mEnd, mBackQueue
    {
      || ack < mLocalNext || Boundary(mBackQueue, history.mEnd, ack)
      || !(Remains(ack) || (ack <= mLocalSeq && (Replies(p, seqNo) || FinishesNext())))
    }

    /** An event sends no first reset, nor pushes payload after the FIN; a writable tunnel may be lost in use. */
    ghost predicate Survives(e: Event)
      requires e.Legal() && mRemoteSeqBase < 0x1_0000_0000 && mLocalSeqBase < 0x1_0000_0000
      reads this, history`mEnd, history`mFins, mBackQueue
    {
      match e
      case FromPeer(p) => SurvivesPacket(p, RelativeSeq(p.seqNo, mRemoteSeqBase), RelativeSeq(p.ackNo, mLocalSeqBase))
      case TunnelData(data) => if data == [] then HarmlessEnd() else MayPush()
      case TunnelWritable => MayLose()
      case TunnelClosed => MayLose()
      case TunnelFailed => MayLose()
    }

    /**
     * A FIN is acknowledged unless more was acknowledged than ever sent, and the acknowledgement resets the connection
     * exactly when the left edge is not at a boundary. The change of state the FIN brings follows even that reset.
     */
    twostate predicate TookFin(seqNo: nat, ack: nat)
      reads this, history`mClean, history`mDisorder, mTunnel
    {
      var left := if old(mLocalNext) <= ack then ack else old(mLocalNext);
        && mLocalNext == left && mRemoteNext == seqNo + 1 && mAccepted == old(mAccepted) && !mFresh
        && mForwardQueue == old(mForwardQueue) && mOrdered == old(mOrdered)
        && (left <= old(mLocalSeq) ==> Pushed(ACK, []))
        && (old(history.mClean) ==> (history.mClean <==> old(SurvivesFin(ack))))
        && (old(history.mClean) && !history.mClean ==> !mAlive)
        && (if left <= old(mLocalSeq) then Resumed() else unchanged(mTunnel))
        && (left <= old(mLocalSeq) && old(mState) == ESTABLISHED ==> mState == CLOSE_WAIT)
        && (left <= old(mLocalSeq) && old(mState) == FIN_WAIT1 ==>
            mState == if ack == left then TIME_WAIT else CLOSING)
        && (left <= old(mLocalSeq) && old(mState) == FIN_WAIT2 ==> mState == TIME_WAIT)
    }

    /**
     * A packet without SYN, FIN and RST: ignored when its acknowledgement is old. Otherwise it resets the connection
     * exactly when the acknowledgement is at no boundary and something is queued to find a gap before: a datagram that
     * remains, the acknowledgement of a payload, or the FIN.
     */
    twostate predicate TookSegment(p: Incoming, seqNo: nat, ack: nat)
      reads this, history`mClean, history`mEnd, history`mDisorder, mTunnel
    {
      var whole := old(Boundary(mBackQueue, history.mEnd, ack));
      if ack < old(mLocalNext) then
        && Passive() && mState == old(mState) && mLocalNext == old(mLocalNext) && mBackQueue == old(mBackQueue)
        && history.mClean == old(history.mClean) && unchanged(mTunnel)
      else
        && (ack <= old(mLocalSeq) && old(mState) != LAST_ACK ==>
            Tuned(old(Setting(AfterAck(mState))), mRemoteNext > old(mRemoteNext)))
        && mLocalNext == ack && mTaken == old(mTaken)
        && (history.mClean ==> (AtBoundary() <==> whole))
        && (p.payload == [] && old(!Remains(ack) && !FinishesNext()) ==>
            mState == AfterAck(old(mState)) && mBackQueue == [])
        && (mState in {AfterAck(old(mState)), CLOSED} || (mRemoteFinished && mState in {FIN_WAIT1, LAST_ACK}))
        && (old(mFresh) && seqNo == old(mRemoteNext) && old(mState) == ESTABLISHED && p.payload != [] ==>
            (ack <= old(mLocalSeq) ==> Pushed(ACK, [])))
        && (old(history.mClean) ==> (history.mClean <==> old(SurvivesSegment(p, seqNo, ack))))
        && Filed(p, seqNo)
    }

    /** `accept`: a packet from the peer, relative numbers as the macro computes them. */
    method Accept(p: Incoming)
      requires Valid()
      requires p.seqNo < 0x1_0000_0000 && p.ackNo < 0x1_0000_0000
      modifies this, history, mTunnel, router`mData, router`mWriteEvent, router`born, mMine
      ensures Valid() && Stepped() && history.mStream == old(history.mStream)
      ensures TookPacket(p, old(RelativeSeq(p.seqNo, mRemoteSeqBase)), old(RelativeSeq(p.ackNo, mLocalSeqBase)))
      ensures GapOnly()
      ensures old(history.mClean) ==> (history.mClean <==> old(SurvivesPacket(p,
        RelativeSeq(p.seqNo, mRemoteSeqBase), RelativeSeq(p.ackNo, mLocalSeqBase))))
      ensures mSendWindow == if p.syn || p.fin || p.rst then old(mSendWindow) else Scaled(p.window, mWindowScale)
      ensures Took(p, old(RelativeSeq(p.seqNo, mRemoteSeqBase)))
      ensures Judged(p, old(RelativeSeq(p.ackNo, mLocalSeqBase)))
      ensures unchanged(this`mReadOff, this`mTaken, this`mGone, this`mDirect, this`mRemoteFinished)
      ensures unchanged(this`mRemoteSeqBase, this`mLocalSeqBase)
    {
      hide TCPSession.Window, HandedOver;
      hide TCPSession.Sane, TCPSession.Phase, TCPSession.Settled, TCPSession.Poised, TCPSession.Forward;
      hide TCPSession.Flushed, TCPSession.TookSegment, TCPSession.TookFin, TCPSession.Harmless, Boundary;
      hide TCPSession.SurvivesFin, TCPSession.SurvivesSegment;
      var seqNo := RelativeSeq(p.seqNo, mRemoteSeqBase);
      var ack := RelativeSeq(p.ackNo, mLocalSeqBase);
      if p.syn {
        OnReceiveSYN();
      } else if p.fin {
        OnReceiveFIN(seqNo, ack);
      } else if p.rst {
        OnReceiveRST();
      } else {
        OnReceiveSegment(seqNo, ack, p);
      }
    }

    /** The window, and the acknowledgement unless it is old. */
    method OnReceiveSegment(seqNo: nat, ack: nat, p: Incoming)
      requires Sane() && Phase() && Settled() && Forward()
      modifies this`mSendWindow, this`mLocalNext, this`mPeerOk
      modifies this`mForwardQueue, this`mForwardQueueDataSize, this`mAccepted, this`mFresh, this`mOrdered
      modifies this`mRemoteNext
      modifies this`mBackQueue, this`mBackQueueDataSize, this`mTotalBack, this`mLocalSeq, this`mState, this`mAlive
      modifies this`mMine, history
      modifies mTunnel, router`mData, router`mWriteEvent, router`born, mMine
      ensures Sane() && Phase() && Settled() && Forward() && Stepped() && history.mStream == old(history.mStream)
      ensures TookSegment(p, seqNo, ack) && Took(p, seqNo) && mSendWindow == Scaled(p.window, mWindowScale)
      ensures GapOnly()
      ensures old(history.mClean) ==> (history.mClean <==> old(SurvivesSegment(p, seqNo, ack)))
      ensures mPeerOk == old(mPeerOk && (ack < mLocalNext || Boundary(mBackQueue, history.mEnd, ack)))
    {
      hide HandedOver;
      hide TCPSession.Sane, TCPSession.Phase, TCPSession.Settled, TCPSession.Forward;
      hide TCPSession.Remains, TcpState.Leads, Boundary, Payload, TCPSession.Tuned, TCPSession.Setting, AfterAck;
      hide Scaled, TCPSession.FinishesNext, TCPSession.HasStuck;
      mSendWindow := Scaled(p.window, mWindowScale);
      MineIsBorn();
      LeadsSelf(mState);
      if mLocalNext <= ack {
        OnNewAck(seqNo, ack, p);
      }
    }

    /** An acknowledgement that is not old. */
    method OnNewAck(seqNo: nat, ack: nat, p: Incoming)
      requires Sane() && Phase() && Settled() && Forward() && mLocalNext <= ack
      modifies this`mLocalNext, this`mPeerOk
      modifies this`mForwardQueue, this`mForwardQueueDataSize, this`mAccepted, this`mFresh, this`mOrdered
      modifies this`mRemoteNext
      modifies this`mBackQueue, this`mBackQueueDataSize, this`mTotalBack, this`mLocalSeq, this`mState, this`mAlive
      modifies this`mMine, history
      modifies mTunnel, router`mData, router`mWriteEvent, router`born, mMine
      ensures Sane() && Phase() && Settled() && Forward() && Stepped() && history.mStream == old(history.mStream)
      ensures TookSegment(p, seqNo, ack)
      ensures GapOnly()
      ensures old(history.mClean) ==> (history.mClean <==> old(SurvivesSegment(p, seqNo, ack)))
      ensures mPeerOk == old(mPeerOk && Boundary(mBackQueue, history.mEnd, ack))
    {
      hide TCPSession.Window, HandedOver;
      hide TCPSession.Sane, TCPSession.Phase, TCPSession.Settled, TCPSession.Poised, TCPSession.Forward;
      hide TCPSession.AtBoundary, TCPSession.HasStuck, TCPSession.Remains, TcpState.Leads, Boundary, Payload;
      TakeAck(ack);
      OnReceiveAck(seqNo, p);
    }

    method OnRemoteFinished()
      requires Sane() && Phase() && Settled()
      modifies this`mRemoteFinished, this`mGone
      modifies this`mBackQueue, this`mBackQueueDataSize, this`mTotalBack, this`mLocalSeq, this`mState, this`mAlive
      modifies this`mMine, history
      modifies mTunnel, router`mData, router`mWriteEvent, router`born, mMine
      ensures Sane() && Phase() && Settled() && Stepped() && mRemoteFinished && history.mStream == old(history.mStream)
      ensures old(!HasStuck() && CouldFinish()) ==> Finished()
      ensures GapOnly() && (old(HasStuck() || !EndRefused()) ==> Resumed())
      ensures old(history.mClean) ==> (history.mClean <==> old(HarmlessEnd()))
    {
      hide TCPSession.Window, HandedOver;
      hide TCPSession.Sane, TCPSession.Settled, TCPSession.Poised, TCPSession.Wired, TCPSession.Pressed;
      hide TCPSession.HasStuck, TCPSession.AtBoundary;
      TunnelGone();
      SettledIsPoised();
      mRemoteFinished := true;
      Flush();
    }

    /** The tunnel has lost its remote end. */
    method OnTunnelDisconnected()
      requires Sane() && Phase() && Settled()
      modifies this`mRemoteFinished, this`mGone
      modifies this`mBackQueue, this`mBackQueueDataSize, this`mTotalBack, this`mLocalSeq, this`mState, this`mAlive
      modifies this`mMine, history
      modifies mTunnel, router`mData, router`mWriteEvent, router`born, mMine
      ensures Sane() && Phase() && Settled() && Stepped()
      ensures history.mStream == old(history.mStream)
      ensures old(mState) !in {ESTABLISHED, CLOSE_WAIT} ==> mState == CLOSED
      ensures old(mState) in {ESTABLISHED, CLOSE_WAIT} ==> mRemoteFinished
      ensures old(!HasStuck() && CouldFinish()) ==> Finished()
      ensures GapOrAbort()
      ensures old(history.mClean) ==> (history.mClean <==> old(MayLose()))
    {
      hide TCPSession.Sane, TCPSession.Settled, TCPSession.Phase, TCPSession.HasStuck, TCPSession.HarmlessEnd;
      hide TCPSession.Stepped, TCPSession.Finished, TCPSession.GapOnly;
      match mState
      case CLOSE_WAIT => OnRemoteFinished();
      case ESTABLISHED => OnRemoteFinished();
      case TIME_WAIT => CloseGone();
      case CLOSING => CloseGone();
      case FIN_WAIT1 => CloseGone();
      case FIN_WAIT2 => CloseGone();
      case _ => Abort();
    }

    ghost method TunnelGone()
      requires Phase() && Settled()
      modifies this`mGone
      ensures Phase() && Settled() && mGone
    {
      hide TCPSession.Orderly, TCPSession.Ready;
      mGone := true;
    }

    /** Closes without a reset. */
    method CloseGone()
      requires Sane() && Phase() && Settled()
      modifies this`mGone, this`mState, this`mAlive, mTunnel
      ensures Sane() && Phase() && Settled() && Stepped() && mState == CLOSED
    {
      hide TCPSession.Sane, TCPSession.Settled, TCPSession.Phase, HandedOver;
      MineIsBorn();
      TunnelGone();
      Move(CLOSED);
    }

    /** Resets the connection on the session's own account. */
    method Abort()
      requires Sane() && Phase() && Settled()
      modifies this`mGone, this`mLocalSeq, this`mState, this`mAlive, history`mClean, history`mChained, history`mHanded
      modifies this`mMine, mTunnel
      modifies router`mData, router`mWriteEvent, router`born
      ensures Sane() && Phase() && Settled() && Stepped() && mState.CLOSED? && !history.mClean && !mAlive
    {
      hide TCPSession.Window, HandedOver;
      hide TCPSession.Sane, DataCapacity;
      TunnelGone();
      BehindEnd();
      ResetConnection();
    }

    lemma BehindEnd()
      requires Sane()
      ensures history.mChained && AtBoundary() ==> mLocalNext <= history.mEnd
    {
      if history.mChained {
        ChainMonotone(mBackQueue, history.mEnd, false);
      }
    }

    /** The datagram queued last is payload of this length. */
    predicate EndsWith(length: nat)
      reads this`mBackQueue
    {
      mBackQueue != [] && Last(mBackQueue).mFlag == ACK && Last(mBackQueue).mLength == length
    }

    /** What of `Phase` holds between two slices of what the tunnel read. */
    ghost predicate Streaming()
      reads this`mState, history`mSyns, history`mFins, this`mRemoteFinished, this`mAlive, mTunnel`mOpen
      reads mTunnel`mReading
    {
      && !mState.LISTEN? && Unfinished() && history.mFins <= 1 && (history.mFins > 0 ==> mRemoteFinished)
      && Wired()
    }

    /** One slice of what the tunnel read. */
    method PushData(data: seq<byte>) returns (r: int)
      requires Sane() && Streaming()
      requires Settled() && 0 < |data| <= TCP_IP_PAYLOAD_SIZE && (mPeerOk ==> !mGone) && (mRemoteFinished ==> mGone)
      modifies this`mBackQueue, this`mBackQueueDataSize, this`mTotalBack, this`mLocalSeq, this`mState, this`mAlive
      modifies this`mMine, history
      modifies mTunnel, router`mData, router`mWriteEvent, router`born, mMine
      ensures Sane() && Streaming() && history.mFins == old(history.mFins)
      ensures history.mClean ==> mState == old(mState)
      ensures history.mDisorder == old(history.mDisorder) ==> mState == old(mState)
      ensures Settled() && Stepped()
      ensures r == -1 || r == |data|
      ensures history.mStream == if r < 0 then old(history.mStream) else old(history.mStream) + data
      ensures mPeerOk && old(history.mClean) ==> r == |data| && history.mClean
      ensures r >= 0 ==> EndsWith(|data|) && mLocalNext <= mLocalSeq
      ensures r < 0 <==> old(mLocalNext > mLocalSeq)
      ensures r < 0 ==> unchanged(this) && unchanged(history) && unchanged(mTunnel)
      ensures r >= 0 ==> Resumed()
      ensures old(history.mClean) ==> (history.mClean <==> old(MayPush()))
      ensures old(history.mFins) == 0 ==> GapOnly()
      ensures history.mClean ==> (AtBoundary() <==> old(AtBoundary()))
      ensures DataCapacity(mBackQueue) <= old(DataCapacity(mBackQueue)) + 40 + |data|
    {
      hide TCPSession.Window, HandedOver;
      hide TCPSession.Sane, TCPSession.AtBoundary, TCPSession.Ready, TCPSession.Wired, TCPSession.HasStuck;
      hide DataCapacity;
      NeverRefused();
      r := PushInBackQueue(ACK, data);
    }

    lemma TakenWhileClean()
      requires Sane() && Settled()
      ensures mPeerOk && history.mClean ==> mLocalNext <= mLocalSeq
    {
      hide TCPSession.Sane;
      NeverRefused();
    }

    lemma NeverRefused()
      requires Sane()
      ensures Ready() && history.mClean ==> mLocalNext <= mLocalSeq
    {
      if history.mClean {
        ChainMonotone(mBackQueue, history.mEnd, true);
      }
    }

    /** What the tunnel read, in slices that fit a packet; a full queue pauses the tunnel. */
    method OnTunnelDataBack(data: seq<byte>) returns (ghost i: nat)
      requires Sane() && Phase() && Settled()
      modifies this`mReadOff, this`mRemoteFinished, this`mGone, this`mTotalRecv, this`mPeerOk, this`mDirect
      modifies this`mBackQueue, this`mBackQueueDataSize, this`mTotalBack, this`mLocalSeq, this`mState, this`mAlive
      modifies this`mMine, history
      modifies mTunnel, router`mData, router`mWriteEvent, router`born, mMine
      ensures Sane() && Phase() && Settled() && Stepped()
      ensures data != [] && history.mClean ==> mState == old(mState)
      ensures i <= |data| && history.mStream == old(history.mStream) + data[..i]
      ensures mPeerOk && old(history.mClean) ==> i == |data|
      ensures i == |data| ==> history.mStream == old(history.mStream) + data
      ensures i == if old(mLocalNext > mLocalSeq) then 0 else |data|
      ensures old(history.mClean) ==> (history.mClean <==> old(if data == [] then HarmlessEnd() else MayPush()))
      ensures mReadOff == old(mReadOff) + data
      ensures i > 0 ==> PausedOrResumed()
      ensures data == [] && old(HasStuck() || !EndRefused()) && history.mDisorder == old(history.mDisorder) ==>
        mTunnel.mReading == MayRead(old(mState))
      ensures data == [] && old(!HasStuck() && CouldFinish()) ==> Finished()
      ensures data == [] || old(history.mFins) == 0 ==> GapOnly()
      ensures data != [] && i == |data| ==> EndsWith(LastSlice(|data|))
      ensures data != [] ==> mGone == old(mGone)
      ensures mPeerOk == (old(mPeerOk) && (data != [] ==> !old(mGone)))
      ensures mDirect == (old(mDirect) && (data != [] ==> |data| <= TCP_IP_PAYLOAD_SIZE && old(mTunnel.mReading)))
    {
      hide TCPSession.Window, HandedOver, TcpState.Leads, TCPSession.HasStuck;
      hide TCPSession.Sane, TCPSession.Settled, DataCapacity, TCPSession.MayPush, TCPSession.HarmlessEnd;
      mReadOff := mReadOff + data;
      TakenWhileClean();
      if |data| <= 0 {
        i := 0;
        mTunnel.PauseReceiveData();
        OnRemoteFinished();
        assert history.mStream + data[..0] == history.mStream;
      } else {
        i := OnTunnelRead(data);
        assert data[..|data|] == data;
      }
    }

    method OnTunnelRead(data: seq<byte>) returns (ghost i: nat)
      requires Sane() && Phase() && Settled() && data != []
      modifies this`mTotalRecv, this`mPeerOk, this`mDirect
      modifies this`mBackQueue, this`mBackQueueDataSize, this`mTotalBack, this`mLocalSeq, this`mState, this`mAlive
      modifies this`mMine, history
      modifies mTunnel, router`mData, router`mWriteEvent, router`born, mMine
      ensures Sane() && Phase() && Settled() && Stepped()
      ensures history.mClean ==> mState == old(mState)
      ensures i <= |data| && history.mStream == old(history.mStream) + data[..i]
      ensures i == if old(mLocalNext > mLocalSeq) then 0 else |data|
      ensures old(history.mClean) ==> (history.mClean <==> old(MayPush()))
      ensures old(history.mFins) == 0 ==> GapOnly()
      ensures i > 0 ==> PausedOrResumed()
      ensures i == |data| ==> EndsWith(LastSlice(|data|))
      ensures mPeerOk == (old(mPeerOk) && !old(mGone))
      ensures mDirect == (old(mDirect) && |data| <= TCP_IP_PAYLOAD_SIZE && old(mTunnel.mReading))
    {
      hide TCPSession.Stepped, TCPSession.GapOnly, TCPSession.EndsWith, TCPSession.AtBoundary;
      hide TCPSession.Sane, TCPSession.MayPush, TCPSession.Settled, DataCapacity, Payload, TcpState.Leads;
      var n := PushRead(data);
      if n > 0 {
        mTotalRecv := mTotalRecv + n;
      }
      i := n;
      PauseIfFull();
    }

    /** The slices of one read. */
    method PushRead(data: seq<byte>) returns (i: nat)
      requires Sane() && Phase() && Settled() && data != []
      modifies this`mPeerOk, this`mDirect
      modifies this`mBackQueue, this`mBackQueueDataSize, this`mTotalBack, this`mLocalSeq, this`mState, this`mAlive
      modifies this`mMine, history
      modifies mTunnel, router`mData, router`mWriteEvent, router`born, mMine
      ensures Sane() && Streaming() && history.mFins == old(history.mFins)
      ensures mDirect ==> DataCapacity(mBackQueue) < TCP_SESSION_BUFFER_SIZE + TCP_IP_PAYLOAD_SIZE + 40
      ensures history.mClean ==> mState == old(mState)
      ensures Settled() && Stepped()
      ensures i <= |data| && history.mStream == old(history.mStream) + data[..i]
      ensures i == if old(mLocalNext > mLocalSeq) then 0 else |data|
      ensures old(history.mClean) ==> (history.mClean <==> old(MayPush()))
      ensures old(history.mFins) == 0 ==> GapOnly()
      ensures (history.mDisorder == old(history.mDisorder) ==>
        && (old(mTunnel.mReading) ==> mTunnel.mReading)
        && (mTunnel.mReading ==> old(mTunnel.mReading) || old(mState) == ESTABLISHED)
        && (i > 0 && MayRead(old(mState)) ==> mTunnel.mReading))
      ensures i == |data| ==> EndsWith(LastSlice(|data|))
      ensures mPeerOk == (old(mPeerOk) && !old(mGone))
      ensures mDirect == (old(mDirect) && |data| <= TCP_IP_PAYLOAD_SIZE && old(mTunnel.mReading))
    {
      hide TCPSession.Window, HandedOver, TCPSession.AtBoundary, TCPSession.EndsWith;
      hide TCPSession.Sane, TCPSession.MayPush, TCPSession.Settled, DataCapacity, Payload, TcpState.Leads;
      Judge(data);
      i := PushAll(data);
    }

    method PauseIfFull()
      requires Sane() && Wired()
      requires mDirect ==> DataCapacity(mBackQueue) < TCP_SESSION_BUFFER_SIZE + TCP_IP_PAYLOAD_SIZE + 40
      modifies mTunnel`mReading
      ensures Pressed() && Wired()
      ensures mTunnel.mReading == (old(mTunnel.mReading) && !(mTunnel.mOpen && mBackQueueDataSize >= 0x4_0000))
    {
      hide TCPSession.Sane, DataCapacity;
      CapacityAtMost();
      if mBackQueueDataSize >= TCP_SESSION_BUFFER_SIZE {
        mTunnel.PauseReceiveData();
      }
    }

    /** Whether the tunnel and the peer still keep to what the bounds are stated for. */
    ghost method Judge(data: seq<byte>)
      requires Settled()
      modifies this`mPeerOk, this`mDirect
      ensures Settled() && mPeerOk == (old(mPeerOk) && !mGone)
      ensures mDirect == (old(mDirect) && |data| <= TCP_IP_PAYLOAD_SIZE && mTunnel.mReading)
    {
      hide TCPSession.Orderly;
      mPeerOk := mPeerOk && !mGone;
      mDirect := mDirect && |data| <= TCP_IP_PAYLOAD_SIZE && mTunnel.mReading;
    }

    method PushAll(data: seq<byte>) returns (i: nat)
      requires Sane() && Streaming()
      requires Settled() && (mPeerOk ==> !mGone) && (mRemoteFinished ==> mGone) && data != []
      modifies this`mBackQueue, this`mBackQueueDataSize, this`mTotalBack, this`mLocalSeq, this`mState, this`mAlive
      modifies this`mMine, history
      modifies mTunnel, router`mData, router`mWriteEvent, router`born, mMine
      ensures Sane() && Streaming() && history.mFins == old(history.mFins)
      ensures history.mClean ==> mState == old(mState)
      ensures Settled() && Stepped()
      ensures i <= |data| && history.mStream == old(history.mStream) + data[..i]
      ensures i == if old(mLocalNext > mLocalSeq) then 0 else |data|
      ensures old(history.mClean) ==> (history.mClean <==> old(MayPush()))
      ensures old(history.mFins) == 0 ==> GapOnly()
      ensures (history.mDisorder == old(history.mDisorder) ==>
        && (old(mTunnel.mReading) ==> mTunnel.mReading)
        && (mTunnel.mReading ==> old(mTunnel.mReading) || old(mState) == ESTABLISHED)
        && (i > 0 && MayRead(old(mState)) ==> mTunnel.mReading))
      ensures i == |data| ==> EndsWith(LastSlice(|data|))
      ensures |data| <= TCP_IP_PAYLOAD_SIZE ==>
        DataCapacity(mBackQueue) <= old(DataCapacity(mBackQueue)) + 40 + TCP_IP_PAYLOAD_SIZE
    {
      hide LastSlice, TCPSession.Window, HandedOver, TCPSession.MayPush, TCPSession.GapOnly, TCPSession.MayRead;
      hide TCPSession.Stand;
      hide TCPSession.Streaming, TCPSession.EndsWith, TCPSession.Pushing, Last;
      hide TCPSession.Sane, TCPSession.AtBoundary, TCPSession.Settled, TCPSession.Wired, DataCapacity, TcpState.Leads;
      hide Payload;
      MineIsBorn();
      LeadsSelf(mState);
      ghost var start := Stand();
      NothingPushed();
      i := 0;
      while i < |data|
        invariant i <= |data|
        invariant Sane() && Streaming() && Pushing(start, i)
        invariant Settled() && Stepped() && mPeerOk == old(mPeerOk)
        invariant history.mStream == old(history.mStream) + data[..i]
        invariant i == 0 ==> DataCapacity(mBackQueue) == old(DataCapacity(mBackQueue))
        invariant i > 0 ==> EndsWith(LastSlice(i))
        invariant i % 61440 == 0 || i == |data|
        invariant i > 0 && |data| <= TCP_IP_PAYLOAD_SIZE ==>
          i == |data| && DataCapacity(mBackQueue) <= old(DataCapacity(mBackQueue)) + 40 + TCP_IP_PAYLOAD_SIZE
      {
        var l := if |data| - i > TCP_IP_PAYLOAD_SIZE then TCP_IP_PAYLOAD_SIZE else |data| - i;
        ghost var was, q, handed := mState, router.mData, history.mHanded;
        var r := PushSlice(data[i..i + l], start, i);
        LeadsForward(old(mState), was, mState);
        HandedOn(old(router.mData), old(history.mHanded), q, handed, router.mData, history.mHanded,
                 this, Window(), Window());
        if r < 0 {
          break;
        }
        assert data[..i + l] == data[..i] + data[i..i + l];
        NextSlice(i, l);
        i := i + l;
      }
      AllPushed(i);
    }

    ghost function Stand(): Standing
      reads this`mState, this`mLocalNext, this`mLocalSeq, this`mBackQueue
      reads history`mClean, history`mEnd, history`mFins, history`mDisorder, mTunnel`mReading
    {
      Standing(mState, history.mClean, AtBoundary(), mLocalNext > mLocalSeq, history.mFins, history.mDisorder,
               mTunnel.mReading)
    }

    /** What pushing the first `i` octets has come to. */
    ghost predicate Pushing(start: Standing, i: nat)
      reads this`mState, this`mAlive, this`mLocalNext, this`mLocalSeq, this`mBackQueue
      reads history`mClean, history`mEnd, history`mFins, history`mDisorder
      reads mTunnel`mReading, mTunnel`mOpen, this`mBackQueueDataSize
    {
      && history.mFins == start.fins
      && (if i == 0 then Stand() == start else !start.refused && mLocalNext <= mLocalSeq)
      && (history.mClean ==> start.clean && mState == start.state && (AtBoundary() <==> start.whole))
      && (i > 0 && start.clean ==> (history.mClean <==> start.whole && start.fins == 0))
      && (start.clean && start.fins == 0 ==>
          if history.mClean then history.mDisorder == start.disorder
          else !mAlive && history.mDisorder > start.disorder)
      && start.disorder <= history.mDisorder
      && (history.mDisorder == start.disorder ==>
          && mState == start.state && (start.reading ==> mTunnel.mReading)
          && (mTunnel.mReading ==> start.reading || start.state == ESTABLISHED)
          && (i > 0 && MayRead(start.state) ==> mTunnel.mReading))
    }

    lemma NothingPushed()
      ensures Pushing(Stand(), 0)
    {
    }

    twostate lemma AllPushed(i: nat)
      requires Pushing(old(Stand()), i) && mLocalNext == old(mLocalNext)
      ensures history.mFins == old(history.mFins) && (history.mClean ==> mState == old(mState))
      ensures i > 0 ==> old(mLocalNext <= mLocalSeq)
      ensures i == 0 ==> (mLocalNext > mLocalSeq <==> old(mLocalNext > mLocalSeq))
      ensures i > 0 || mLocalNext > mLocalSeq ==> old(history.mClean) ==> (history.mClean <==> old(MayPush()))
      ensures old(history.mFins) == 0 ==> GapOnly()
      ensures history.mDisorder == old(history.mDisorder) ==>
        && (old(mTunnel.mReading) ==> mTunnel.mReading)
        && (mTunnel.mReading ==> old(mTunnel.mReading) || old(mState) == ESTABLISHED)
        && (i > 0 && MayRead(old(mState)) ==> mTunnel.mReading)
    {
      hide TCPSession.AtBoundary;
    }

    /** The slice after the first `i` octets. */
    method PushSlice(data: seq<byte>, ghost start: Standing, ghost i: nat) returns (r: int)
      requires Sane() && Streaming() && Pushing(start, i)
      requires Settled() && 0 < |data| <= TCP_IP_PAYLOAD_SIZE && (mPeerOk ==> !mGone) && (mRemoteFinished ==> mGone)
      modifies this`mBackQueue, this`mBackQueueDataSize, this`mTotalBack, this`mLocalSeq, this`mState, this`mAlive
      modifies this`mMine, history
      modifies mTunnel, router`mData, router`mWriteEvent, router`born, mMine
      ensures Sane() && Streaming() && Settled() && Stepped()
      ensures r == -1 || r == |data|
      ensures history.mStream == if r < 0 then old(history.mStream) else old(history.mStream) + data
      ensures r >= 0 ==> EndsWith(|data|)
      ensures r < 0 ==> i == 0 && mLocalNext > mLocalSeq
      ensures Pushing(start, if r < 0 then 0 else i + |data|)
      ensures DataCapacity(mBackQueue) <= old(DataCapacity(mBackQueue)) + 40 + |data|
    {
      hide TCPSession.Window, HandedOver;
      hide TCPSession.Sane, TCPSession.AtBoundary, TCPSession.Settled, TCPSession.Streaming, TcpState.Leads;
      hide DataCapacity, TCPSession.EndsWith;
      r := PushData(data);
    }

    /** The tunnel took the first `n` octets at the front of the forward queue. */
    method Consume(n: nat)
      requires Sorted(mForwardQueue) && mForwardQueue != [] && n <= |mForwardQueue[0].data|
      modifies this`mForwardQueue, this`mTaken
      ensures Sorted(mForwardQueue) && DataSum(mForwardQueue) == old(DataSum(mForwardQueue)) - n
      ensures mTaken == old(mTaken) + old(mForwardQueue)[0].data[..n]
      ensures mTaken + Flatten(mForwardQueue) == old(mTaken + Flatten(mForwardQueue))
      ensures forall next: nat :: old(Below(mForwardQueue, next)) ==> Below(mForwardQueue, next)
    {
      hide Sorted, DataSum, Flatten, Below;
      ConsumedOctets(mForwardQueue, n);
      ConsumedOrder(mForwardQueue, n);
      var front := mForwardQueue[0];
      assert mTaken + Flatten(mForwardQueue) == mTaken + front.data[..n] + Flatten(Consumed(mForwardQueue, n));
      mTaken := mTaken + front.data[..n];
      if n == |front.data| {
        mForwardQueue := mForwardQueue[1..];
      } else {
        mForwardQueue := [front.(data := front.data[n..])] + mForwardQueue[1..];
      }
    }

    /** Offers the tunnel some octets; an error comes back as a disconnection before the call returns. */
    method SendToTunnel(size: nat) returns (s: int)
      requires Sane() && Phase() && Settled()
      modifies this`mRemoteFinished, this`mGone
      modifies this`mBackQueue, this`mBackQueueDataSize, this`mTotalBack, this`mLocalSeq, this`mState, this`mAlive
      modifies this`mMine, history
      modifies mTunnel, router`mData, router`mWriteEvent, router`born, mMine
      ensures Sane() && Phase() && Settled() && Stepped() && s <= size
      ensures GapOrAbort()
      ensures history.mStream == old(history.mStream)
      ensures s >= 0 ==> unchanged(this) && unchanged(history) && unchanged(mTunnel) && unchanged(router)
      ensures s >= 0 ==> MayLose() == old(MayLose())
      ensures s < 0 ==> old(mTunnel.mOpen) && !mTunnel.mOpen
      ensures s < 0 && old(history.mClean) ==> (history.mClean <==> old(MayLose()))
    {
      hide TCPSession.Window, HandedOver;
      hide TCPSession.Sane, TCPSession.Settled, DataCapacity, TCPSession.MayLose;
      MineIsBorn();
      s := mTunnel.SendData(size);
      if s < 0 {
        OnTunnelDisconnected();
      }
    }

    /** The tunnel is writable: it is offered the forward queue until it takes no more. */
    method OnTunnelWritable() returns (sent: nat)
      requires Sane() && Phase() && Settled() && Forward()
      modifies this`mForwardQueue, this`mForwardQueueDataSize, this`mTaken, this`mRemoteFinished, this`mGone
      modifies this`mAnswers
      modifies this`mBackQueue, this`mBackQueueDataSize, this`mTotalBack, this`mLocalSeq, this`mState, this`mAlive
      modifies this`mMine, history
      modifies mTunnel, router`mData, router`mWriteEvent, router`born, mMine
      ensures Sane() && Phase() && Settled() && Forward() && Stepped()
      ensures history.mStream == old(history.mStream)
      ensures GapOrAbort() && Offered(old(mAnswers))
      ensures mTunnel.mOpen == old(mTunnel.mOpen) ==>
        mTunnel.mReading == old(mTunnel.mReading)
          && (mTunnel.mOpen ==> mTunnel.mWriting == (old(mTunnel.mWriting) && sent > 0))
      ensures old(history.mClean) ==>
        (history.mClean <==> mTunnel.mOpen == old(mTunnel.mOpen) || old(MayLose()))
      ensures old(mTaken) <= mTaken && |mTaken| == |old(mTaken)| + sent
      ensures mTaken + Flatten(mForwardQueue) == old(mTaken + Flatten(mForwardQueue))
    {
      hide TCPSession.Stepped, TCPSession.GapOrAbort, TCPSession.MayLose;
      hide TCPSession.Sane, TCPSession.Phase, TCPSession.Settled, Sorted, DataSum, Flatten, Below;
      Idle();
      sent := 0;
      if mForwardQueue != [] {
        sent := SendForward();
        if sent > 0 {
          mForwardQueueDataSize := mForwardQueueDataSize - sent;
        } else {
          mTunnel.PauseSendData();
        }
      } else {
        mTunnel.PauseSendData();
      }
    }

    /** Whatever is left in the forward queue is left because the tunnel took no more. */
    ghost predicate Offered(before: seq<int>)
      reads this`mForwardQueue, this`mAnswers
    {
      && before <= mAnswers
      && (mForwardQueue != [] ==> |before| < |mAnswers| && mAnswers[|mAnswers| - 1] <= 0)
    }

    /** Nothing has happened yet. */
    twostate lemma Idle()
      requires Sane() && unchanged(this) && unchanged(history) && unchanged(router) && unchanged(mTunnel)
      ensures Stepped() && GapOrAbort()
    {
      hide TCPSession.Sane, TCPSession.Window, HandedOver, TcpState.Leads;
      MineIsBorn();
      LeadsSelf(mState);
      NothingHanded(router.mData, history.mHanded, this, Window());
    }

    /** Offers the front of the forward queue, which the tunnel takes as far as it answers. */
    method OfferFront() returns (s: int)
      requires Sane() && Phase() && Settled() && Sorted(mForwardQueue) && mForwardQueue != []
      modifies this`mForwardQueue, this`mTaken, this`mRemoteFinished, this`mGone, this`mAnswers
      modifies this`mBackQueue, this`mBackQueueDataSize, this`mTotalBack, this`mLocalSeq, this`mState, this`mAlive
      modifies this`mMine, history
      modifies mTunnel, router`mData, router`mWriteEvent, router`born, mMine
      ensures Sane() && Phase() && Settled() && Stepped() && GapOrAbort()
      ensures history.mStream == old(history.mStream) && mAnswers == old(mAnswers) + [s]
      ensures s >= 0 ==> unchanged(history) && unchanged(mTunnel) && unchanged(router)
      ensures s >= 0 ==> mState == old(mState) && mAlive == old(mAlive) && mMine == old(mMine)
      ensures s >= 0 ==> MayLose() == old(MayLose())
      ensures s < 0 ==> old(mTunnel.mOpen) && !mTunnel.mOpen
      ensures s < 0 && old(history.mClean) ==> (history.mClean <==> old(MayLose()))
      ensures s <= 0 ==> mForwardQueue == old(mForwardQueue) && mTaken == old(mTaken)
      ensures s > 0 ==> Sorted(mForwardQueue) && DataSum(mForwardQueue) == old(DataSum(mForwardQueue)) - s
      ensures s > 0 ==> old(mTaken) <= mTaken && |mTaken| == |old(mTaken)| + s
      ensures s > 0 ==> mTaken + Flatten(mForwardQueue) == old(mTaken + Flatten(mForwardQueue))
      ensures forall next: nat :: old(Below(mForwardQueue, next)) ==> Below(mForwardQueue, next)
    {
      hide TCPSession.Sane, TCPSession.Phase, TCPSession.Settled, Sorted, DataSum, Flatten, Below;
      hide TCPSession.MayLose, TCPSession.Stepped, TCPSession.GapOrAbort;
      s := SendToTunnel(|mForwardQueue[0].data|);
      mAnswers := mAnswers + [s];
      if s > 0 {
        Consume(s);
      }
    }

    method SendForward() returns (sent: nat)
      requires Sane() && Phase() && Settled() && Sorted(mForwardQueue)
      modifies this`mForwardQueue, this`mTaken, this`mRemoteFinished, this`mGone, this`mAnswers
      modifies this`mBackQueue, this`mBackQueueDataSize, this`mTotalBack, this`mLocalSeq, this`mState, this`mAlive
      modifies this`mMine, history
      modifies mTunnel, router`mData, router`mWriteEvent, router`born, mMine
      ensures Sane() && Phase() && Settled() && Stepped()
      ensures history.mStream == old(history.mStream)
      ensures GapOrAbort() && Offered(old(mAnswers))
      ensures mTunnel.mOpen == old(mTunnel.mOpen) ==>
        mTunnel.mReading == old(mTunnel.mReading) && mTunnel.mWriting == old(mTunnel.mWriting)
      ensures old(history.mClean) ==>
        (history.mClean <==> mTunnel.mOpen == old(mTunnel.mOpen) || old(MayLose()))
      ensures Sorted(mForwardQueue) && DataSum(mForwardQueue) + sent == old(DataSum(mForwardQueue))
      ensures mTaken + Flatten(mForwardQueue) == old(mTaken + Flatten(mForwardQueue))
      ensures old(mTaken) <= mTaken && |mTaken| == |old(mTaken)| + sent
      ensures forall next: nat :: old(Below(mForwardQueue, next)) ==> Below(mForwardQueue, next)
    {
      hide TCPSession.Window, HandedOver, TCPSession.CouldFinish;
      hide TCPSession.Sane, TCPSession.Phase, TCPSession.Settled, Sorted, DataSum, Flatten, Below, TcpState.Leads;
      hide TCPSession.MayLose;
      MineIsBorn();
      LeadsSelf(mState);
      sent := 0;
      while mForwardQueue != []
        invariant Sane() && Phase() && Settled() && unchanged(history) && unchanged(router) && unchanged(mTunnel)
        invariant mState == old(mState) && mAlive == old(mAlive) && mMine == old(mMine) && mPeerOk == old(mPeerOk)
        invariant MayLose() == old(MayLose()) && old(mAnswers) <= mAnswers
        invariant Sorted(mForwardQueue) && DataSum(mForwardQueue) + sent == old(DataSum(mForwardQueue))
        invariant mTaken + Flatten(mForwardQueue) == old(mTaken + Flatten(mForwardQueue))
        invariant old(mTaken) <= mTaken && |mTaken| == |old(mTaken)| + sent
        invariant forall next: nat :: old(Below(mForwardQueue, next)) ==> Below(mForwardQueue, next)
        decreases DataSum(mForwardQueue)
      {
        var s := OfferFront();
        if s <= 0 {
          break;
        }
        sent := sent + s;
      }
    }

    /** Lets go of every queued datagram. */
    method ClearBackQueue()
      requires Sane()
      modifies this`mBackQueue, this`mBackQueueDataSize
      modifies mMine`mAbort, mMine`mReleaseAfterBuffering, mMine`freed
      ensures Owned() && router.Valid() && mBackQueue == [] && mBackQueueDataSize == 0
    {
      hide Router.Valid, AllBuilt, AllCarry, Gapless, PayloadSum, CapacitySum;
      while mBackQueue != []
        invariant Owned() && router.Valid() && Distinct(mBackQueue)
        invariant forall s <- mBackQueue :: !s.freed
        decreases |mBackQueue|
      {
        var segment := mBackQueue[0];
        assert segment in mBackQueue;
        SafeReleaseSegment(segment);
        mBackQueue := mBackQueue[1..];
      }
      mBackQueueDataSize := 0;
    }

    /** The destructor: each datagram the session built is freed, or the Router frees it when it leaves the queue. */
    method Destroy()
      requires Sane()
      modifies this`mBackQueue, this`mBackQueueDataSize, this`mForwardQueue, mTunnel
      modifies mMine`mAbort, mMine`mReleaseAfterBuffering, mMine`freed
      ensures router.Valid() && !mTunnel.mOpen && mBackQueue == [] && mForwardQueue == []
      ensures forall s <- mMine :: s.freed || Leaving(s, router.mData)
    {
      hide Router.Valid, TCPSession.Back;
      mTunnel.DestroyTunnel();
      mForwardQueue := [];
      ClearBackQueue();
    }

    method LoseTunnel()
      requires Sane() && Phase()
      modifies mTunnel
      ensures Sane() && Phase() && Grown() && !mTunnel.mOpen
    {
      hide TCPSession.Window, HandedOver;
      hide TCPSession.Sane, DataCapacity;
      MineIsBorn();
      mTunnel.DestroyTunnel();
    }

    /** The remote closed the tunnel, which goes before the session hears of it. */
    method OnTunnelClosed()
      requires Sane() && Phase() && Settled()
      modifies this`mRemoteFinished, this`mGone
      modifies this`mBackQueue, this`mBackQueueDataSize, this`mTotalBack, this`mLocalSeq, this`mState, this`mAlive
      modifies this`mMine, history
      modifies mTunnel, router`mData, router`mWriteEvent, router`born, mMine
      ensures Sane() && Phase() && Settled() && Stepped() && history.mStream == old(history.mStream)
      ensures !mTunnel.mOpen && (mRemoteFinished || mState == CLOSED)
      ensures old(!HasStuck() && CouldFinish()) ==> Finished()
      ensures GapOrAbort()
      ensures old(history.mClean) ==> (history.mClean <==> old(MayLose()))
    {
      hide TCPSession.Window, HandedOver;
      hide TCPSession.Sane, TCPSession.Phase, TCPSession.Settled, TCPSession.HasStuck, TCPSession.MayLose;
      LoseTunnel();
      OnTunnelDisconnected();
    }

    /** An error of the tunnel's, which goes after the session has heard of it. */
    method OnTunnelFailed()
      requires Sane() && Phase() && Settled()
      modifies this`mRemoteFinished, this`mGone
      modifies this`mBackQueue, this`mBackQueueDataSize, this`mTotalBack, this`mLocalSeq, this`mState, this`mAlive
      modifies this`mMine, history
      modifies mTunnel, router`mData, router`mWriteEvent, router`born, mMine
      ensures Sane() && Phase() && Settled() && Stepped() && history.mStream == old(history.mStream)
      ensures mRemoteFinished || mState == CLOSED
      ensures old(!HasStuck() && CouldFinish()) ==> Finished()
      ensures GapOrAbort()
      ensures old(history.mClean) ==> (history.mClean <==> old(MayLose()))
      ensures !mTunnel.mOpen
    {
      hide TCPSession.Window, HandedOver;
      hide TCPSession.Sane, TCPSession.Phase, TCPSession.Settled, TCPSession.HasStuck, TCPSession.MayLose;
      OnTunnelDisconnected();
      ghost var ends := old(!HasStuck() && CouldFinish());
      assert ends ==> Finished();
      LoseTunnel();
      assert ends ==> Finished();
    }

    /** What an event adds to the streams: tunnel data, unless refused, to the one, the peer's payload to the other. */
    twostate predicate Streamed(e: Event)
      requires e.Legal() && old(mRemoteSeqBase) < 0x1_0000_0000
      reads this, history`mStream, history`mClean
    {
      && history.mStream ==
         (old(history.mStream) + if e.TunnelData? && old(mLocalNext <= mLocalSeq) then e.data else [])
      && mReadOff == (old(mReadOff) + if e.TunnelData? then e.data else [])
      && (if e.FromPeer? then Took(e.p, old(RelativeSeq(e.p.seqNo, mRemoteSeqBase)))
          else mAccepted == old(mAccepted) && mFresh == old(mFresh) && mOrdered == old(mOrdered))
      && (if e.TunnelWritable? then old(mTaken) <= mTaken else mTaken == old(mTaken))
      && mRemoteSeqBase == old(mRemoteSeqBase) && mLocalSeqBase == old(mLocalSeqBase)
    }

    /** One event of the reactor's for this session. */
    method Handle(e: Event)
      requires Valid() && e.Legal()
      modifies this, history, mTunnel, router`mData, router`mWriteEvent, router`born, mMine
      ensures Valid() && Stepped() && Streamed(e)
      ensures e.FromPeer? ==>
        && TookPacket(e.p, old(RelativeSeq(e.p.seqNo, mRemoteSeqBase)), old(RelativeSeq(e.p.ackNo, mLocalSeqBase)))
        && Judged(e.p, old(RelativeSeq(e.p.ackNo, mLocalSeqBase)))
      ensures !e.FromPeer? ==> TookEvent(e)
      ensures old(history.mClean) ==> (history.mClean <==>
        old(Survives(e)) || (e.TunnelWritable? && mTunnel.mOpen == old(mTunnel.mOpen)))
      ensures e.FromPeer? || (e.TunnelData? && (e.data == [] || old(history.mFins) == 0)) ==> GapOnly()
      ensures e.TunnelWritable? || e.TunnelClosed? || e.TunnelFailed? ==> GapOrAbort()
    {
      hide TCPSession.Window, HandedOver;
      hide TCPSession.Valid, TCPSession.SurvivesPacket, TCPSession.MayLose, TCPSession.MayPush;
      hide TCPSession.HarmlessEnd, TCPSession.GapOnly, TCPSession.GapOrAbort, TCPSession.TookEvent;
      hide TCPSession.TookPacket, TCPSession.Judged, TCPSession.Took, TCPSession.Stepped;
      if e.FromPeer? {
        BasesFit();
        Accept(e.p);
      } else {
        HandleTunnel(e);
      }
    }

    lemma BasesFit()
      requires Valid()
      ensures mRemoteSeqBase < 0x1_0000_0000 && mLocalSeqBase < 0x1_0000_0000
    {
    }

    /** One event of the tunnel's. */
    method HandleTunnel(e: Event)
      requires Valid() && !e.FromPeer?
      modifies this, history, mTunnel, router`mData, router`mWriteEvent, router`born, mMine
      ensures Valid() && Stepped() && Streamed(e) && TookEvent(e)
      ensures old(history.mClean) ==> (history.mClean <==>
        old(Survives(e)) || (e.TunnelWritable? && mTunnel.mOpen == old(mTunnel.mOpen)))
      ensures e.TunnelData? && (e.data == [] || old(history.mFins) == 0) ==> GapOnly()
      ensures !e.TunnelData? ==> GapOrAbort()
    {
      hide TCPSession.Window, HandedOver;
      hide TCPSession.Valid, TCPSession.Stepped, TCPSession.TookEvent, TCPSession.MayLose, TCPSession.MayPush;
      hide TCPSession.HarmlessEnd, TCPSession.GapOnly, TCPSession.GapOrAbort;
      BasesFit();
      match e
      case TunnelData(data) => HandleData(data);
      case TunnelWritable => HandleWritable();
      case TunnelClosed => HandleEnd(e);
      case TunnelFailed => HandleEnd(e);
    }

    method HandleData(data: seq<byte>)
      requires Valid()
      modifies this, history, mTunnel, router`mData, router`mWriteEvent, router`born, mMine
      ensures Valid() && Stepped() && Streamed(TunnelData(data)) && TookEvent(TunnelData(data))
      ensures old(history.mClean) ==> (history.mClean <==> old(if data == [] then HarmlessEnd() else MayPush()))
      ensures data == [] || old(history.mFins) == 0 ==> GapOnly()
    {
      hide TCPSession.Window, HandedOver;
      hide TCPSession.Sane, TCPSession.Phase, TCPSession.Settled, TCPSession.Forward, TCPSession.Stepped;
      hide TCPSession.MayLose, TCPSession.MayPush, TCPSession.HarmlessEnd, TCPSession.GapOnly, TCPSession.GapOrAbort;
      hide TCPSession.HasStuck, TCPSession.CouldFinish, TCPSession.Finished;
      if mPeerOk && !mGone {
        CleanUntilGone();
      }
      var i := OnTunnelDataBack(data);
    }

    method HandleWritable()
      requires Valid()
      modifies this, history, mTunnel, router`mData, router`mWriteEvent, router`born, mMine
      ensures Valid() && Stepped() && Streamed(TunnelWritable) && TookEvent(TunnelWritable) && GapOrAbort()
      ensures old(history.mClean) ==>
        (history.mClean <==> mTunnel.mOpen == old(mTunnel.mOpen) || old(MayLose()))
    {
      hide TCPSession.Window, HandedOver;
      hide TCPSession.Sane, TCPSession.Phase, TCPSession.Settled, TCPSession.Forward, TCPSession.Stepped;
      hide TCPSession.MayLose, TCPSession.MayPush, TCPSession.HarmlessEnd, TCPSession.GapOnly, TCPSession.GapOrAbort;
      hide TCPSession.HasStuck, TCPSession.CouldFinish, TCPSession.Finished;
      var sent := OnTunnelWritable();
    }

    method HandleEnd(e: Event)
      requires Valid() && (e.TunnelClosed? || e.TunnelFailed?)
      modifies this, history, mTunnel, router`mData, router`mWriteEvent, router`born, mMine
      ensures Valid() && Stepped() && Streamed(e) && TookEvent(e) && GapOrAbort()
      ensures old(history.mClean) ==> (history.mClean <==> old(MayLose()))
    {
      hide TCPSession.Window, HandedOver;
      hide TCPSession.Sane, TCPSession.Phase, TCPSession.Settled, TCPSession.Forward, TCPSession.Stepped;
      hide TCPSession.MayLose, TCPSession.MayPush, TCPSession.HarmlessEnd, TCPSession.GapOnly, TCPSession.GapOrAbort;
      hide TCPSession.HasStuck, TCPSession.CouldFinish, TCPSession.Finished;
      if e.TunnelClosed? {
        OnTunnelClosed();
      } else {
        OnTunnelFailed();
      }
    }

    /** What the end of the tunnel and its data do besides. */
    twostate predicate TookEvent(e: Event)
      reads this, history`mFins, history`mClean, history`mDisorder, mTunnel
    {
      && mPeerOk == (old(mPeerOk) && (e.TunnelData? && e.data != [] ==> !old(mGone)))
      && (e.TunnelClosed? || e.TunnelFailed? ==> mRemoteFinished || mState == CLOSED)
      && (e.TunnelClosed? || e.TunnelFailed? || e == TunnelData([]) ==>
          old(!HasStuck() && CouldFinish()) ==> Finished())
      && (e.TunnelClosed? || e.TunnelFailed? ==> !mTunnel.mOpen)
      && (e.TunnelWritable? ==> Offered(old(mAnswers)))
      && (e.TunnelData? && e.data != [] && old(mLocalNext <= mLocalSeq) ==> PausedOrResumed())
      && (e == TunnelData([]) && old(HasStuck() || !EndRefused()) && history.mDisorder == old(history.mDisorder) ==>
          mTunnel.mReading == MayRead(old(mState)))
      && (e.TunnelWritable? && mTunnel.mOpen == old(mTunnel.mOpen) ==>
          && mTunnel.mReading == old(mTunnel.mReading)
          && (mTunnel.mOpen ==> mTunnel.mWriting == (old(mTunnel.mWriting) && |mTaken| > |old(mTaken)|)))
    }

    /** Where the streams are after a run that began with what `start` says. */
    ghost predicate Followed(script: seq<Event>, app: seq<byte>, start: Marks)
      reads this`mReadOff, this`mOrdered, this`mAccepted, this`mTaken, this`mRemoteSeqBase, history`mStream
    {
      && start.base < 0x1_0000_0000 && start.stream <= history.mStream && start.taken <= mTaken
      && mRemoteSeqBase == start.base
      && mReadOff == start.read + FromTunnel(script)
      && (mOrdered && start.accepted <= app && (forall e <- script :: Slice(e, start.base, app)) ==> mAccepted <= app)
    }

    lemma Unmoved(app: seq<byte>)
      requires mRemoteSeqBase < 0x1_0000_0000
      ensures Followed([], app, Marks(history.mStream, mReadOff, mAccepted, mTaken, mRemoteSeqBase))
    {
    }

    /** What a run promises of the streams. */
    lemma Reached(script: seq<Event>, app: seq<byte>, start: Marks)
      requires Valid() && Followed(script, app, start)
      ensures start.base < 0x1_0000_0000 && start.stream <= history.mStream && start.taken <= mTaken
      ensures mReadOff == start.read + FromTunnel(script) && (mPeerOk ==> history.mStream == mReadOff)
      ensures mOrdered && start.accepted <= app && (forall e <- script :: Slice(e, start.base, app)) ==>
        mAccepted <= app && mTaken <= app
    {
      ForwardPromises();
    }

    /** One more event. */
    method Next(script: seq<Event>, i: nat, ghost app: seq<byte>, ghost start: Marks)
      requires Valid() && i < |script| && script[i].Legal() && Followed(script[..i], app, start)
      modifies this, history, mTunnel, router`mData, router`mWriteEvent, router`born, mMine
      ensures Valid() && Stepped() && Followed(script[..i + 1], app, start)
    {
      hide TCPSession.Window, HandedOver;
      hide TCPSession.Valid, TCPSession.TookPacket, TCPSession.Judged, RelativeSeq, FromTunnel;
      hide Sorted, Below, DataSum, Flatten;
      ForwardPromises();
      assert script[i] in script[..i + 1] && forall d <- script[..i] :: d in script[..i + 1];
      assert script[..i + 1] == script[..i] + [script[i]];
      FromTunnelNext(script[..i], script[i]);
      Handle(script[i]);
    }

    /**
     * Any run of events: what `Valid` says holds throughout, and the state moves forwards. With a well-behaved peer
     * what was pushed is all that the tunnel delivered. Whatever application stream the peer's packets
     * carry slices of, the tunnel takes a prefix of it as long as no payload was queued out of order.
     */
    method Run(script: seq<Event>, ghost app: seq<byte>)
      requires Valid() && forall e <- script :: e.Legal()
      modifies this, history, mTunnel, router`mData, router`mWriteEvent, router`born, mMine
      ensures Valid() && SteppedUpTo(TCP_MAX_SEND_WINDOW) && old(history.mStream) <= history.mStream
        && old(mTaken) <= mTaken
      ensures mReadOff == old(mReadOff) + FromTunnel(script) && (mPeerOk ==> history.mStream == mReadOff)
      ensures mOrdered && old(mAccepted) <= app && (forall e <- script :: Slice(e, old(mRemoteSeqBase), app)) ==>
        mAccepted <= app && mTaken <= app
    {
      hide HandedOver;
      hide TCPSession.Valid, TCPSession.Followed, Slice, TcpState.Leads;
      ValidIsBorn();
      NothingHanded(router.mData, history.mHanded, this, TCP_MAX_SEND_WINDOW);
      LeadsSelf(mState);
      ForwardPromises();
      Unmoved(app);
      ghost var start := Marks(history.mStream, mReadOff, mAccepted, mTaken, mRemoteSeqBase);
      for i := 0 to |script|
        invariant Valid() && SteppedUpTo(TCP_MAX_SEND_WINDOW) && Followed(script[..i], app, start)
      {
        ghost var was, q, handed := mState, router.mData, history.mHanded;
        Next(script, i, app, start);
        LeadsForward(old(mState), was, mState);
        HandedOn(old(router.mData), old(history.mHanded), q, handed, router.mData, history.mHanded, this, Window(),
                 TCP_MAX_SEND_WINDOW);
      }
      assert script[..|script|] == script;
      Reached(script, app, start);
    }

    lemma ValidIsBorn()
      requires Valid()
      ensures Sane() && router.Valid() && router.born == router.born + mMine
      ensures HandedOver(router.mData, history.mHanded, router.mData, history.mHanded, this, Window())
      ensures forall d <- mMine :: d in router.born && d.owner == this
    {
      MineIsBorn();
    }

    /** What `Valid` promises of the back path. */
    lemma BackPromises()
      requires Valid()
      ensures mTotalRecv == mTotalBack + PayloadSum(mBackQueue) && mBackQueueDataSize == CapacitySum(mBackQueue)
      ensures forall s <- history.mHanded ::
        s.mLength <= |s.packet| && ReceiverAccepts(s.packet) && SeqField(s.packet) == Net32(s.mSeq + mLocalSeqBase)
        && AckField(s.packet) == Net32(s.mAck + mRemoteSeqBase) && s.packet[33] == s.mFlag
      ensures forall s <- history.mHanded | s in history.mCarrying && s.mLength > 0 ::
        && 1 <= s.mSeq && s.mSeq - 1 + s.mLength <= |history.mStream|
        && Payload(s) == history.mStream[s.mSeq - 1..s.mSeq - 1 + s.mLength]
      ensures mPeerOk ==> history.mStream == mReadOff
      ensures mPeerOk ==> forall s <- history.mHanded | s in history.mCarrying && s.mLength > 0 ::
        Payload(s) == mReadOff[s.mSeq - 1..s.mSeq - 1 + s.mLength]
      ensures history.mClean ==>
        (forall s <- history.mHanded :: s in history.mCarrying) && (forall s <- mBackQueue :: s in history.mCarrying)
      ensures mPeerOk ==> history.mDisorder == 0 && (mGone || history.mClean)
      ensures mPeerOk && history.mClean ==>
        if mBackQueue == [] then mLocalNext == mLocalSeq else mBackQueue[0].mSeq == mLocalNext
      ensures history.mFins <= 1 && (mPeerOk && history.mFins == 1 ==> mLocalNext >= 1 + mTotalRecv)
      ensures mDirect ==> DataCapacity(mBackQueue) < 0x4_0000 + 61480
    {
      hide ReceiverAccepts, SeqField, AckField, Router.Valid;
      if history.mClean {
        ChainMonotone(mBackQueue, history.mEnd, true);
      }
    }

    /** An acknowledgement inside the payload queued last leaves nothing queued. */
    lemma NothingRemains(length: nat, ack: nat)
      requires Valid() && history.mClean && EndsWith(length) && mLocalSeq - length < ack && length > 0
      ensures !Remains(ack)
    {
      hide Payload, Router.Valid;
      ChainUpToLast(mBackQueue, history.mEnd, true);
    }

    /** No boundary lies inside the payload queued last. */
    lemma NoneInside(length: nat, ack: nat)
      requires Valid() && history.mClean && EndsWith(length) && mLocalSeq - length < ack < mLocalSeq
      ensures !Boundary(mBackQueue, history.mEnd, ack)
    {
      hide Payload, Router.Valid;
      ChainLast(mBackQueue, history.mEnd, true, Last(mBackQueue));
      NoBoundaryInside(mBackQueue, history.mEnd, true, ack);
    }

    lemma NoneBuilt()
      requires New()
      ensures mMine == {} && history.mHanded == []
    {
    }

    lemma NumbersSoFar()
      requires Valid() && history.mClean && !mGone
      ensures mLocalSeq == 1 + |history.mStream| && history.mFins == 0 && !mRemoteFinished
    {
      hide Router.Valid;
    }

    lemma CleanUntilGone()
      requires Valid() && mPeerOk && !mGone
      ensures history.mClean && mLocalSeqBase < 0x1_0000_0000
    {
    }

    /** What `Valid` promises of the forward path. */
    lemma ForwardPromises()
      requires Valid()
      ensures Forward() && mRemoteSeqBase < 0x1_0000_0000
      ensures mForwardQueueDataSize == DataSum(mForwardQueue) && Sorted(mForwardQueue)
      ensures mFresh ==> mTaken + Flatten(mForwardQueue) == mAccepted && |mAccepted| == mRemoteNext - 1
      ensures mOrdered ==> mTaken <= mAccepted
    {
    }

    /** A step of someone else's that adds to the Router's queue and touches nothing of this session's. */
    twostate lemma Undisturbed()
      requires old(Valid()) && router.Valid()
      requires unchanged(this) && unchanged(history) && unchanged(mTunnel) && (forall d <- mMine :: unchanged(d))
      requires old(router.born) <= router.born && old(router.mData) <= router.mData
      ensures Valid()
    {
      hide Router.Valid, TCPSession.Back, TCPSession.Settled, TCPSession.Forward, TCPSession.Phase;
      forall d | d in mBackQueue ensures unchanged(d) {
        assert d in old(mBackQueue) && d in old(mMine) && d in mMine;
      }
      BackUndisturbed();
      assert Owned() by {
        assert forall d <- mMine ::
          d.freed == old(d.freed) && d.mReleaseAfterBuffering == old(d.mReleaseAfterBuffering)
            && d.mAbort == old(d.mAbort);
      }
    }

    twostate lemma BackUndisturbed()
      requires old(Back()) && unchanged(this) && unchanged(history) && forall d <- mBackQueue :: unchanged(d)
      ensures Back()
    {
      hide Gapless, AllBuilt, AllCarry, PayloadSum, CapacitySum, Distinct;
    }

    /** A step of the Router's that takes datagrams off its queue. */
    twostate lemma Drained()
      requires old(Valid()) && router.Valid() && unchanged(this) && unchanged(history) && unchanged(mTunnel)
      requires router.born == old(router.born)
      requires forall d <- mMine :: d.mAbort == old(d.mAbort) && d.mRetry == old(d.mRetry)
      requires forall d <- mMine :: d.mReleaseAfterBuffering == old(d.mReleaseAfterBuffering)
      requires forall d <- mMine | !d.freed && d.mBuffering :: old(d.mBuffering)
      requires forall d <- mMine | old(d.freed) || d !in old(router.mData) :: d.freed == old(d.freed)
      requires forall d <- old(router.mData) :: d.freed <==> d !in router.mData && d.mReleaseAfterBuffering
      ensures Valid()
    {
      hide Router.Valid, Gapless, AllBuilt, AllCarry, TCPSession.Settled, TCPSession.Forward, PayloadSum, CapacitySum;
    }
  }

  /** A new connection that has answered its SYN. */
  method Connected(router: Router, ends: Endpoints, syn: Incoming) returns (s: TCPSession)
    requires syn.seqNo < 0x1_0000_0000 && router.Valid()
    modifies router`mData, router`mWriteEvent, router`born
    ensures fresh(s) && fresh(s.history) && fresh(s.mTunnel) && fresh(s.mMine)
    ensures s.router == router && s.ends == ends && s.mState == SYN_RCVED
    ensures router.Valid() && router.born == old(router.born) + s.mMine && old(router.mData) <= router.mData
    ensures HandedOver(old(router.mData), [], router.mData, s.history.mHanded, s, s.Window())
    ensures s.Valid() && s.mPeerOk && !s.mGone && s.history.mClean && s.history.mStream == []
    ensures s.mLocalNext == 0 && s.mLocalSeq == 1 && s.mLocalSeqBase < 0x8000_0000
    ensures s.mSendWindow == Scaled(syn.window, syn.windowScale)
  {
    hide TCPSession.Valid, Router.Valid, TCPSession.Blank, HandedOver;
    s := new TCPSession(router, ends);
    assert s.mMine == {} && s.history.mHanded == [] by {
      s.NoneBuilt();
    }
    s.Handshake(syn);
    s.ValidIsBorn();
    HandedKeeps(old(router.mData), [], router.mData, s.history.mHanded, s, s.Window());
  }

  /** A new connection with one data segment queued behind its SYN. */
  method OneSegment(ends: Endpoints, syn: Incoming, data: seq<byte>) returns (s: TCPSession)
    requires syn.seqNo < 0x1_0000_0000 && 0 < |data| <= TCP_IP_PAYLOAD_SIZE
    ensures fresh(s) && fresh(s.history) && fresh(s.mTunnel) && fresh(s.router) && fresh(s.mMine)
    ensures s.Valid() && s.history.mClean && s.history.mStream == data && s.mLocalNext == 0
    ensures s.EndsWith(|data|) && s.mLocalSeq == 1 + |data|
    ensures s.mLocalSeqBase < 0x8000_0000 && s.mState == SYN_RCVED && !s.mGone && s.history.mFins == 0
    ensures !s.mRemoteFinished
  {
    hide TCPSession.Sane, TCPSession.Phase, TCPSession.Settled, TCPSession.Forward, Payload;
    hide TCPSession.AtBoundary, TcpState.Leads, Router.Valid, TCPSession.Back, TCPSession.Owned, HandedOver;
    hide TCPSession.MayPush, TCPSession.HarmlessEnd, TCPSession.HasStuck, TCPSession.Finished;
    var router := new Router();
    s := Connected(router, ends, syn);
    ghost var i := s.OnTunnelDataBack(data);
    s.CleanUntilGone();
    s.NumbersSoFar();
  }

  /**
   * A peer that acknowledges a part of the one data segment queued, in a packet that has to be answered, has the
   * connection reset.
   */
  method PartialAckResets(ends: Endpoints, syn: Incoming, data: seq<byte>, seqNo: nat, ack: nat) returns (s: TCPSession)
    requires syn.seqNo < 0x1_0000_0000 && seqNo < 0x1_0000_0000
    requires 2 <= ack <= |data| <= TCP_IP_PAYLOAD_SIZE
    ensures s.Valid() && s.history.mStream == data && !s.history.mClean && !s.mPeerOk
    ensures !s.mAlive && s.history.mDisorder > 0
  {
    hide TCPSession.Valid, Boundary, Payload, TCPSession.Stepped, TCPSession.Took;
    s := OneSegment(ends, syn, data);
    s.NoneInside(|data|, ack);
    s.Accept(Incoming(seqNo, s.mLocalSeqBase + ack, false, true, false, FIN + ACK, 0, 0, []));
  }

  /** In a packet that needs no answer the same acknowledgement drops the segment and resets nothing yet. */
  method PartialAckWaits(ends: Endpoints, syn: Incoming, data: seq<byte>, seqNo: nat, ack: nat) returns (s: TCPSession)
    requires syn.seqNo < 0x1_0000_0000 && seqNo < 0x1_0000_0000
    requires 2 <= ack <= |data| <= TCP_IP_PAYLOAD_SIZE
    ensures fresh(s) && fresh(s.history) && fresh(s.mTunnel) && fresh(s.router) && fresh(s.mMine)
    ensures s.Valid() && s.history.mStream == data && s.history.mClean && !s.mPeerOk
    ensures s.mState == ESTABLISHED && s.mLocalNext == ack < s.mLocalSeq && !s.AtBoundary() && !s.HasStuck()
    ensures !s.mGone && s.history.mFins == 0 && s.mLocalSeqBase < 0x8000_0000
  {
    hide TCPSession.Valid, Boundary, Payload, TcpState.Leads, TCPSession.Took, TCPSession.Filed;
    s := OneSegment(ends, syn, data);
    s.NoneInside(|data|, ack);
    s.NothingRemains(|data|, ack);
    s.Accept(Incoming(seqNo, s.mLocalSeqBase + ack, false, false, false, ACK, 0, 0, []));
    s.NumbersSoFar();
  }

  /** The next octets the tunnel delivers, however few, then reset the connection. */
  method DataResetsLater(ends: Endpoints, syn: Incoming, data: seq<byte>, seqNo: nat, ack: nat, more: seq<byte>)
    returns (s: TCPSession)
    requires syn.seqNo < 0x1_0000_0000 && seqNo < 0x1_0000_0000
    requires 2 <= ack <= |data| <= TCP_IP_PAYLOAD_SIZE && more != []
    ensures s.Valid() && !s.history.mClean && !s.mAlive && s.history.mDisorder > 0
  {
    hide TCPSession.Valid, TCPSession.AtBoundary, TCPSession.Stepped, TCPSession.Streamed;
    s := PartialAckWaits(ends, syn, data, seqNo, ack);
    s.Handle(TunnelData(more));
  }

  /** The FIN of the peer resets the connection as well, which is in CLOSE_WAIT afterwards, and dead. */
  method FinLeavesClosed(ends: Endpoints, syn: Incoming, data: seq<byte>, seqNo: nat, ack: nat) returns (s: TCPSession)
    requires syn.seqNo < 0x1_0000_0000 && seqNo < 0x1_0000_0000
    requires 2 <= ack <= |data| <= TCP_IP_PAYLOAD_SIZE
    ensures s.Valid() && s.mState == CLOSE_WAIT && !s.mAlive && !s.history.mClean && s.history.mDisorder > 0
  {
    hide TCPSession.Valid, TCPSession.Stepped, TCPSession.Took, TCPSession.Filed, Payload, Boundary;
    s := PartialAckWaits(ends, syn, data, seqNo, ack);
    s.Accept(Incoming(seqNo, s.mLocalSeqBase + ack, false, true, false, FIN + ACK, 0, 0, []));
  }

  /** The end of the tunnel makes it push the FIN, which resets the connection: it is in LAST_ACK, and dead. */
  method EndLeavesClosed(ends: Endpoints, syn: Incoming, data: seq<byte>, seqNo: nat, ack: nat) returns (s: TCPSession)
    requires syn.seqNo < 0x1_0000_0000 && seqNo < 0x1_0000_0000
    requires 2 <= ack <= |data| <= TCP_IP_PAYLOAD_SIZE
    ensures s.Valid() && s.mState == LAST_ACK && !s.mAlive && !s.history.mClean && s.history.mDisorder > 0
  {
    hide TCPSession.Valid, TCPSession.AtBoundary, TCPSession.HasStuck, TCPSession.Stepped, TCPSession.Streamed;
    s := PartialAckWaits(ends, syn, data, seqNo, ack);
    s.Handle(TunnelClosed);
  }
}
