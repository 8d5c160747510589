/** The Internet checksum (IPAdpt.cpp:109-128; RFC 1071). */
module Checksum {
  import opened Bytes

  /** Sum of the little-endian 16-bit words; a last odd octet counts as a low octet. */
  function SumLE(s: seq<byte>): nat {
    if |s| == 0 then 0
    else if |s| == 1 then s[0]
    else s[0] + 256 * s[1] + SumLE(s[2..])
  }

  /** Sum of the 16-bit words in network byte order, padded with a zero octet. */
  function SumBE(s: seq<byte>): nat {
    if |s| == 0 then 0
    else if |s| == 1 then 256 * s[0]
    else 256 * s[0] + s[1] + SumBE(s[2..])
  }

  /** The end-around carries: `sum = (sum & 0xFFFF) + (sum >> 16)` while there is a high half. */
  function Fold(sum: nat): (r: nat)
    ensures r < 0x1_0000
  {
    if sum < 0x1_0000 then sum else Fold(sum % 0x1_0000 + sum / 0x1_0000)
  }

  /** What `computeChecksum` gives: the word sum in 32 bits, folded to 16. */
  function Sum16(start: nat, s: seq<byte>): (r: nat)
    ensures r < 0x1_0000
  {
    Fold((start + SumLE(s)) % 0x1_0000_0000)
  }

  lemma {:induction false} MultipleAdded(a: nat, k: nat)
    ensures (a + 0xFFFF * k) % 0xFFFF == a % 0xFFFF
  {
    if k > 0 {
      MultipleAdded(a, k - 1);
    }
  }

  /** Folding keeps the residue modulo 65535 and tells zero from every other multiple of 65535. */
  lemma {:induction false} FoldResidue(n: nat)
    ensures Fold(n) % 0xFFFF == n % 0xFFFF
    ensures Fold(n) == 0 <==> n == 0
    decreases n
  {
    if n >= 0x1_0000 {
      var lo, hi := n % 0x1_0000, n / 0x1_0000;
      assert n == lo + hi + 0xFFFF * hi;
      MultipleAdded(lo + hi, hi);
      FoldResidue(lo + hi);
    }
  }

  lemma FoldEqual(a: nat, b: nat)
    requires a % 0xFFFF == b % 0xFFFF && (a == 0 <==> b == 0)
    ensures Fold(a) == Fold(b)
  {
    FoldResidue(a);
    FoldResidue(b);
  }

  lemma {:induction false} SumLEBound(s: seq<byte>)
    ensures SumLE(s) <= 0xFFFF * (|s| / 2) + 255 * (|s| % 2)
  {
    if |s| >= 2 {
      SumLEBound(s[2..]);
    }
  }

  /** The 32-bit accumulator cannot overflow on up to 131072 octets. */
  lemma NoOverflow(start: nat, s: seq<byte>)
    requires start < 0x1_0000 && |s| <= 0x2_0000
    ensures start + SumLE(s) < 0x1_0000_0000
  {
    SumLEBound(s);
  }

  lemma {:induction false} SumLESplit(a: seq<byte>, b: seq<byte>)
    requires |a| % 2 == 0
    ensures SumLE(a + b) == SumLE(a) + SumLE(b)
  {
    if a == [] {
      assert a + b == b;
    } else {
      assert (a + b)[2..] == a[2..] + b;
      SumLESplit(a[2..], b);
    }
  }

  /** Chaining over parts is one pass over their concatenation when every part but the last has even length. */
  lemma Chained(start: nat, a: seq<byte>, b: seq<byte>)
    requires start < 0x1_0000 && |a| % 2 == 0 && |a| + |b| <= 0x2_0000
    ensures Sum16(Sum16(start, a), b) == Sum16(start, a + b)
  {
    hide SumLE, Fold;
    var x, y := start + SumLE(a), SumLE(b);
    NoOverflow(start, a);
    NoOverflow(Sum16(start, a), b);
    NoOverflow(start, a + b);
    SumLESplit(a, b);
    FoldResidue(x);
    SameResiduePlus(Fold(x), x, y);
    FoldEqual(Fold(x) + y, x + y);
  }

  lemma SameResiduePlus(a: nat, b: nat, y: nat)
    requires a % 0xFFFF == b % 0xFFFF
    ensures (a + y) % 0xFFFF == (b + y) % 0xFFFF
  {
  }

  /** Octets at odd positions. */
  function OddOctets(s: seq<byte>): nat {
    if |s| < 2 then 0 else s[1] + OddOctets(s[2..])
  }

  /** Byte-order independence (section 2 of RFC 1071): swapping every word multiplies the sum by 256 modulo 65535. */
  lemma {:induction false} SumsSwapped(s: seq<byte>)
    ensures 256 * SumLE(s) == SumBE(s) + 0xFFFF * OddOctets(s)
    ensures SumLE(s) == 0 <==> SumBE(s) == 0
  {
    if |s| >= 2 {
      SumsSwapped(s[2..]);
    }
  }

  /** A receiver that sums in network byte order finds all ones. */
  ghost predicate Accepted(s: seq<byte>) {
    Fold(SumBE(s)) == 0xFFFF
  }

  lemma AcceptedIfMultiple(s: seq<byte>)
    requires SumLE(s) % 0xFFFF == 0 && SumLE(s) > 0
    ensures Accepted(s)
  {
    hide SumLE, SumBE, Fold, OddOctets;
    SumsSwapped(s);
    var q := SumLE(s) / 0xFFFF;
    assert SumBE(s) == 0xFFFF * (256 * q - OddOctets(s));
    MultipleHasNoResidue(SumBE(s), 256 * q - OddOctets(s));
    FoldResidue(SumBE(s));
  }

  lemma MultipleHasNoResidue(n: nat, k: int)
    requires n == 0xFFFF * k
    ensures n % 0xFFFF == 0
  {
  }

  lemma SumLEStep(s: seq<byte>)
    ensures |s| >= 2 ==> SumLE(s) == Word(s[1], s[0]) + SumLE(s[2..])
    ensures |s| == 1 ==> SumLE(s) == s[0]
    ensures |s| == 0 ==> SumLE(s) == 0
  {
  }

  /** One addition in 32 bits. */
  lemma AddIn32(sum: nat, w: nat, rest: nat)
    ensures ((sum + w) % 0x1_0000_0000 + rest) % 0x1_0000_0000 == (sum + (w + rest)) % 0x1_0000_0000
  {
  }

  method ComputeChecksum(start: nat, buffer: array<byte>, p: nat, length: nat) returns (r: nat)
    requires start < 0x1_0000 && p + length <= buffer.Length
    ensures r == Sum16(start, buffer[p..p + length])
  {
    hide SumLE, Fold;
    var sum, buf, len := start, p, length;
    ghost var s := buffer[p..p + length];
    ghost var rest := s;
    while len > 1
      invariant 0 <= len && p <= buf && buf + len == p + length
      invariant rest == buffer[buf..buf + len]
      invariant 0 <= sum < 0x1_0000_0000
      invariant (sum + SumLE(rest)) % 0x1_0000_0000 == (start + SumLE(s)) % 0x1_0000_0000
    {
      SumLEStep(rest);
      var w := Word(buffer[buf + 1], buffer[buf]);
      AddIn32(sum, w, SumLE(rest[2..]));
      SubArray(buffer, buf, len, 2, len - 2);
      rest := rest[2..];
      sum := (sum + w) % 0x1_0000_0000;
      buf := buf + 2;
      len := len - 2;
    }
    SumLEStep(rest);
    if len > 0 {
      sum := (sum + buffer[buf]) % 0x1_0000_0000;
    }
    r := FoldLoop(sum);
  }

  method FoldLoop(start: nat) returns (r: nat)
    ensures r == Fold(start)
  {
    var sum := start;
    while sum / 0x1_0000 != 0
      invariant sum >= 0 && Fold(sum) == Fold(start)
      decreases sum
    {
      sum := sum % 0x1_0000 + sum / 0x1_0000;
    }
    r := sum;
  }
}
