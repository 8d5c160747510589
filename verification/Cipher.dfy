/** `encrypt` and `decrypt` (Cipher.cpp): an id octet, the shift coder, the padding coder, then framing. */
module Ciphers {
  import opened Bytes
  import opened Framing
  import Shift = ShiftCoder
  import Padding = PaddingCoder

  const MAX_ENCRYPT_SIZE := 4096
  const CIPHER_BUFFER_SIZE := 8192

  /** Coder ids; 0 marks plaintext. */
  const PLAIN: byte := 0
  const PADDING: byte := 1
  const SHIFT: byte := 2

  /** One `encrypt` call: the octets it took and the random choices it made. */
  datatype Parcel = Parcel(plain: seq<byte>, shift: Shift.Amount, pad: seq<byte>) {
    ghost predicate Valid() {
      && 1 <= |plain| <= MAX_ENCRYPT_SIZE
      && Padding.PaddingAllowed(|plain| + 3, CIPHER_BUFFER_SIZE - 1, |pad|)
    }

    /** The coded octets before framing. */
    function Inner(): seq<byte> {
      [PADDING] + Padding.Padded([SHIFT] + Shift.Shifted([PLAIN] + plain, shift), pad)
    }

    /** The octets `encrypt` writes. */
    function Ciphertext(): seq<byte> {
      Pack(Inner())
    }
  }

  datatype Peeled = Plain(data: seq<byte>) | Malformed

  /** Removes coder layers from the outside until the id octet 0. */
  function Peel(x: seq<byte>): Peeled
    decreases |x|
  {
    if |x| < 1 then Malformed
    else if x[0] == PLAIN then Plain(x[1..])
    else if x[0] == PADDING && Padding.HasPadding(x[1..]) then Peel(Padding.Unpadded(x[1..]))
    else if x[0] == SHIFT && |x| > 1 && x[1] < 8 then Peel(Shift.Unshifted(x[1..]))
    else Malformed
  }

  lemma PeelPadded(d: seq<byte>, pad: seq<byte>)
    requires |pad| < 0x1_0000
    ensures Peel([PADDING] + Padding.Padded(d, pad)) == Peel(d)
  {
    Padding.UnpaddedPadded(d, pad);
    var x := [PADDING] + Padding.Padded(d, pad);
    assert x[1..] == Padding.Padded(d, pad);
  }

  lemma PeelShifted(d: seq<byte>, shift: Shift.Amount)
    ensures Peel([SHIFT] + Shift.Shifted(d, shift)) == Peel(d)
  {
    Shift.UnshiftedShifted(d, shift);
    var x := [SHIFT] + Shift.Shifted(d, shift);
    assert x[1..] == Shift.Shifted(d, shift);
  }

  /** Removing the layers undoes `encrypt`, whatever shift and padding it chose. */
  lemma PeelInner(p: Parcel)
    requires p.Valid()
    ensures Peel(p.Inner()) == Plain(p.plain)
  {
    var plain := [PLAIN] + p.plain;
    PeelPadded([SHIFT] + Shift.Shifted(plain, p.shift), p.pad);
    PeelShifted(plain, p.shift);
    assert plain[1..] == p.plain;
  }

  lemma InnerLength(p: Parcel)
    ensures |p.Inner()| == |p.plain| + 6 + |p.pad|
  {
    Shift.UnshiftedShifted([PLAIN] + p.plain, p.shift);
  }

  /** `++len`, then every coder's estimate plus its id octet, then the framing estimate. */
  function EstimateEncryptLen(len: nat): nat {
    EstimatePackLen(Padding.EncodeLen(Shift.EncodeLen(len + 1) + 1) + 1)
  }

  /** A parcel never outgrows its estimate by more than the two padding-length octets the estimate forgets. */
  lemma CiphertextBounds(p: Parcel)
    requires p.Valid()
    ensures |p.plain| + 8 <= |p.Ciphertext()| <= EstimateEncryptLen(|p.plain|) + 2
    ensures |p.Ciphertext()| <= 4114
    ensures EstimatePackLen(|p.Inner()|) <= CIPHER_BUFFER_SIZE
    ensures |p.plain| <= 1021 ==> |p.Ciphertext()| <= 1031
    ensures |p.Ciphertext()| <= |p.plain| + 1030
  {
    InnerLength(p);
    PackLength(p.Inner());
  }

  /** The room that framing asks for when the padding is as long as it can be. */
  function WorstEncryptLen(len: nat): nat {
    EstimatePackLen(len + 6 + Padding.PaddingRange(len + 3))
  }

  /** The longest padding may be drawn, for any plaintext; every other parcel needs no more room than that. */
  lemma WorstCase(p: Parcel)
    requires p.Valid()
    ensures EstimatePackLen(|p.Inner()|) <= WorstEncryptLen(|p.plain|)
    ensures var worst := p.(pad := seq(Padding.PaddingRange(|p.plain| + 3), i => 0));
      worst.Valid() && EstimatePackLen(|worst.Inner()|) == WorstEncryptLen(|p.plain|)
  {
    InnerLength(p);
    InnerLength(p.(pad := seq(Padding.PaddingRange(|p.plain| + 3), i => 0)));
  }

  /** The octets of a layer under an id, a length and a padding. */
  lemma UnderPadding(x: seq<byte>, y: seq<byte>, z: seq<byte>, pad: seq<byte>)
    requires x == [1] + y && |y| == 2 + |pad| + |z| && y[2..2 + |pad|] == pad && y[2 + |pad|..] == z
    ensures |x| == 3 + |pad| + |z| && x[0] == 1 && x[1] == y[0] && x[2] == y[1] && x[3..3 + |pad|] == pad
    ensures forall k :: 0 <= k < |z| ==> x[3 + |pad| + k] == z[k]
  {
    forall k | 0 <= k < |z| ensures x[3 + |pad| + k] == z[k] {
      assert y[2 + |pad|..][k] == y[2 + |pad| + k];
    }
  }

  /** The octets of the shifted plaintext under its ids. */
  lemma UnderShift(plain: seq<byte>, shift: Shift.Amount)
    ensures var z := [SHIFT] + Shift.Shifted([PLAIN] + plain, shift);
      && |z| == 3 + |plain| && z[0] == 2 && z[1] == shift && z[2] == 0
      && forall i :: 0 <= i < |plain| ==> z[3 + i] == Shift.Rotated(plain[i], (shift + 1 + i) % 8)
  {
    hide Shift.Rotated, Shift.Shifted;
    var d := [PLAIN] + plain;
    Shift.UnshiftedShifted(d, shift);
    Shift.ShiftedOctets(d, shift, 0);
    Shift.RotatedZero(shift);
    var z := [SHIFT] + Shift.Shifted(d, shift);
    forall i | 0 <= i < |plain| ensures z[3 + i] == Shift.Rotated(plain[i], (shift + 1 + i) % 8) {
      var k := 1 + i;
      Shift.ShiftedOctets(d, shift, k);
      assert d[k] == plain[i] && z[3 + i] == Shift.Shifted(d, shift)[1 + k] && shift + 1 + i == shift + k;
    }
  }

  /** The coded octets of a parcel: id 1 with the padding, id 2 with the shift, and id 0 and the plaintext shifted. */
  lemma InnerOctets(p: Parcel)
    requires p.Valid()
    ensures var x, n := p.Inner(), |p.pad|;
      && |x| == 6 + n + |p.plain|
      && x[0] == 1 && x[1] as int * 0x100 + x[2] == n && x[3..3 + n] == p.pad
      && x[3 + n] == 2 && x[4 + n] == p.shift && x[5 + n] == 0
      && forall i :: 0 <= i < |p.plain| ==> x[6 + n + i] == Shift.Rotated(p.plain[i], (p.shift + 1 + i) % 8)
    ensures p.Ciphertext() == Pack(p.Inner())
  {
    hide Shift.Rotated, Shift.Shifted, Padding.Padded;
    var z := [SHIFT] + Shift.Shifted([PLAIN] + p.plain, p.shift);
    UnderShift(p.plain, p.shift);
    Padding.UnpaddedPadded(z, p.pad);
    UnderPadding(p.Inner(), Padding.Padded(z, p.pad), z, p.pad);
    var x, n := p.Inner(), |p.pad|;
    assert x[3 + n + 0] == z[0] && x[3 + n + 1] == z[1] && x[3 + n + 2] == z[2];
    forall i | 0 <= i < |p.plain| ensures x[6 + n + i] == Shift.Rotated(p.plain[i], (p.shift + 1 + i) % 8) {
      assert x[3 + n + (3 + i)] == z[3 + i];
    }
  }

  /** The ciphertext of a run of parcels. */
  function Wire(ps: seq<Parcel>): seq<byte> {
    if ps == [] then [] else ps[0].Ciphertext() + Wire(ps[1..])
  }

  /** The plaintext of a run of parcels. */
  function PlainText(ps: seq<Parcel>): seq<byte> {
    if ps == [] then [] else ps[0].plain + PlainText(ps[1..])
  }

  /** `k` is the number of whole parcels of `ps` in their first `len` ciphertext octets. */
  ghost predicate IsWholeCount(ps: seq<Parcel>, len: nat, k: nat) {
    && k <= |ps|
    && |Wire(ps[..k])| <= len
    && (k < |ps| ==> len < |Wire(ps[..k + 1])|)
  }

  lemma WireCons(p: Parcel, rest: seq<Parcel>)
    ensures Wire([p] + rest) == p.Ciphertext() + Wire(rest)
    ensures PlainText([p] + rest) == p.plain + PlainText(rest)
  {
    assert ([p] + rest)[1..] == rest;
  }

  /**
   * What a `decrypt` call that has `len` octets of input and `size` of room makes of the ciphertext of `ps`: it
   * reads exactly the `k` whole parcels and gives their plaintext, or refuses when the room is too small.
   */
  ghost predicate IsDecryption(ps: seq<Parcel>, len: nat, size: nat, k: nat, used: nat, plain: seq<byte>) {
    && k <= |ps|
    && used == |Wire(ps[..k])|
    && plain == PlainText(ps[..k])
    && if len <= size then IsWholeCount(ps, len, k) else k == 0
  }

  lemma {:induction false} WireSplit(ps: seq<Parcel>, qs: seq<Parcel>)
    ensures Wire(ps + qs) == Wire(ps) + Wire(qs)
  {
    if ps == [] {
      assert ps + qs == qs;
    } else {
      var p, rest := ps[0], ps[1..];
      calc {
        Wire(ps + qs);
        { assert ps + qs == [p] + (rest + qs); WireCons(p, rest + qs); }
        p.Ciphertext() + Wire(rest + qs);
        { WireSplit(rest, qs); }
        p.Ciphertext() + (Wire(rest) + Wire(qs));
        (p.Ciphertext() + Wire(rest)) + Wire(qs);
        { assert ps == [p] + rest; WireCons(p, rest); }
        Wire(ps) + Wire(qs);
      }
    }
  }

  lemma {:induction false} PlainTextSplit(ps: seq<Parcel>, qs: seq<Parcel>)
    ensures PlainText(ps + qs) == PlainText(ps) + PlainText(qs)
  {
    if ps == [] {
      assert ps + qs == qs;
    } else {
      var p, rest := ps[0], ps[1..];
      calc {
        PlainText(ps + qs);
        { assert ps + qs == [p] + (rest + qs); WireCons(p, rest + qs); }
        p.plain + PlainText(rest + qs);
        { PlainTextSplit(rest, qs); }
        p.plain + (PlainText(rest) + PlainText(qs));
        (p.plain + PlainText(rest)) + PlainText(qs);
        { assert ps == [p] + rest; WireCons(p, rest); }
        PlainText(ps) + PlainText(qs);
      }
    }
  }

  lemma WireAppend(ps: seq<Parcel>, p: Parcel)
    ensures Wire(ps + [p]) == Wire(ps) + p.Ciphertext()
    ensures PlainText(ps + [p]) == PlainText(ps) + p.plain
  {
    hide Parcel.Ciphertext;
    WireSplit(ps, [p]);
    PlainTextSplit(ps, [p]);
    WireCons(p, []);
    assert [p] + [] == [p];
  }

  /** What `unpack` finds in a window onto a run of parcels: the first one, if the window holds all of it. */
  lemma UnpackWindow(p: Parcel, rest: seq<Parcel>, w: seq<byte>)
    requires p.Valid()
    requires w <= Wire([p] + rest)
    ensures |w| < |p.Ciphertext()| ==> Unpack(w, CIPHER_BUFFER_SIZE) == Unfinished
    ensures |w| >= |p.Ciphertext()| ==>
      && Unpack(w, CIPHER_BUFFER_SIZE) == Whole(p.Inner(), |p.Ciphertext()|)
      && w[|p.Ciphertext()|..] <= Wire(rest)
  {
    hide Unpack, Pack;
    var c := p.Ciphertext();
    CiphertextBounds(p);
    InnerLength(p);
    assert Wire([p] + rest) == c + Wire(rest) by {
      assert ([p] + rest)[1..] == rest;
    }
    if |w| < |c| {
      assert w == c[..|w|];
      UnpackStrictPrefix(p.Inner(), |w|, CIPHER_BUFFER_SIZE);
    } else {
      assert w == c + w[|c|..];
      UnpackPack(p.Inner(), w[|c|..], CIPHER_BUFFER_SIZE);
    }
  }

  ghost predicate AllValid(ps: seq<Parcel>) {
    forall p <- ps :: p.Valid()
  }

  /** `w` is a prefix of the ciphertext of `ps`. */
  ghost predicate Onto(w: seq<byte>, ps: seq<Parcel>) {
    w <= Wire(ps)
  }

  /** `decrypt` asks for as much room as it has input. */
  function EstimateDecryptLen(len: nat): nat { len }

  lemma DecryptNothing(ps: seq<Parcel>, len: nat, size: nat)
    requires AllValid(ps)
    ensures EstimateDecryptLen(len) == len
    ensures len == 0 || len > size ==> IsDecryption(ps, len, size, 0, 0, [])
  {
    if ps != [] {
      CiphertextBounds(ps[0]);
      WireCons(ps[0], []);
      assert ps[..1] == [ps[0]] + [];
    }
  }

  lemma CountNext(ps: seq<Parcel>, k: nat)
    requires AllValid(ps) && k < |ps|
    ensures Wire(ps[..k + 1]) == Wire(ps[..k]) + ps[k].Ciphertext()
    ensures PlainText(ps[..k + 1]) == PlainText(ps[..k]) + ps[k].plain
    ensures Peel(ps[k].Inner()) == Plain(ps[k].plain)
    ensures 0 < |ps[k].plain| < |ps[k].Ciphertext()|
    ensures 0 < |ps[k].Inner()| <= CIPHER_BUFFER_SIZE
  {
    hide Wire, PlainText, Parcel.Ciphertext, Peel, Parcel.Inner;
    var p := ps[k];
    assert p in ps;
    assert ps[..k + 1] == ps[..k] + [p];
    WireAppend(ps[..k], p);
    PeelInner(p);
    InnerLength(p);
    CiphertextBounds(p);
  }

  /** After `k` whole parcels of a window of `len` octets: `w` is left of it, `plain` came out of it. */
  ghost predicate Decrypted(ps: seq<Parcel>, len: nat, k: nat, w: seq<byte>, plain: seq<byte>) {
    && AllValid(ps)
    && k <= |ps|
    && |Wire(ps[..k])| + |w| == len
    && Onto(w, ps[k..])
    && plain == PlainText(ps[..k])
  }

  /** The window holds no whole parcel, or one that decodes to `plain`. */
  ghost predicate Decodes(w: seq<byte>, plain: seq<byte>) {
    var u := Unpack(w, CIPHER_BUFFER_SIZE);
    u.Whole? ==> u.payload != [] && Peel(u.payload) == Plain(plain) && 0 < |plain| < u.consumed
  }

  lemma DecryptedNone(ps: seq<Parcel>, len: nat, w: seq<byte>)
    requires AllValid(ps) && |w| == len && Onto(w, ps)
    ensures Decrypted(ps, len, 0, w, [])
  {
    assert ps[0..] == ps && ps[..0] == [];
  }

  lemma DecryptedAll(ps: seq<Parcel>, len: nat, size: nat, k: nat, w: seq<byte>, plain: seq<byte>)
    requires len <= size
    requires Decrypted(ps, len, k, w, plain)
    requires w == [] || Unpack(w, CIPHER_BUFFER_SIZE) == Unfinished
    ensures IsDecryption(ps, len, size, k, len - |w|, plain)
  {
    hide Unpack, Wire, PlainText, Parcel.Ciphertext, Parcel.Inner;
    if k < |ps| {
      var p := ps[k];
      CountNext(ps, k);
      assert [p] + ps[k + 1..] == ps[k..];
      UnpackWindow(p, ps[k + 1..], w);
    }
  }

  /** One turn of the `decrypt` loop. */
  lemma DecryptedNext(ps: seq<Parcel>, len: nat, k: nat, w: seq<byte>, plain: seq<byte>)
    requires Decrypted(ps, len, k, w, plain) && w != []
    ensures k < |ps| && Decodes(w, ps[k].plain)
    ensures var u := Unpack(w, CIPHER_BUFFER_SIZE);
      u.Whole? ==> |ps[k].plain| < u.consumed && Decrypted(ps, len, k + 1, w[u.consumed..], plain + ps[k].plain)
  {
    hide Unpack, PlainText, Parcel.Ciphertext, Parcel.Inner, Peel;
    if k < |ps| {
      hide Wire;
      var p := ps[k];
      CountNext(ps, k);
      assert [p] + ps[k + 1..] == ps[k..];
      UnpackWindow(p, ps[k + 1..], w);
    }
  }

  lemma WireGrows(ps: seq<Parcel>, i: nat, j: nat)
    requires i <= j <= |ps|
    ensures |Wire(ps[..i])| <= |Wire(ps[..j])|
  {
    hide Wire, Parcel.Ciphertext;
    assert ps[..j] == ps[..i] + ps[i..j];
    WireSplit(ps[..i], ps[i..j]);
  }

  /**
   * `decrypt` on the ciphertext of `ps` followed by a strict prefix of one more parcel gives all the plaintext of
   * `ps` and stops exactly at its end.
   */
  lemma DecryptsExactly(ps: seq<Parcel>, p: Parcel, cut: nat, size: nat, k: nat, used: nat, plain: seq<byte>)
    requires cut < |p.Ciphertext()| && |Wire(ps)| + cut <= size
    requires IsDecryption(ps + [p], |Wire(ps)| + cut, size, k, used, plain)
    ensures k == |ps| && used == |Wire(ps)| && plain == PlainText(ps)
  {
    hide Wire, PlainText, Parcel.Ciphertext;
    var all := ps + [p];
    assert all[..|ps|] == ps && all[..|all|] == all;
    WireAppend(ps, p);
    if k < |ps| {
      WireGrows(all, k + 1, |ps|);
    }
  }

  class Cipher {
    const mBuffer: array<byte>
    const mBuffer1: array<byte>

    ghost predicate Valid() {
      && mBuffer != mBuffer1
      && mBuffer.Length == mBuffer1.Length == CIPHER_BUFFER_SIZE
    }

    /** A buffer of the caller's. */
    ghost predicate Foreign(a: array<byte>) {
      a != mBuffer && a != mBuffer1
    }

    lemma NotOurs(a: array<byte>)
      requires Foreign(a)
      ensures a != mBuffer && a != mBuffer1
    {
    }

    constructor ()
      ensures Valid() && fresh(mBuffer) && fresh(mBuffer1) && mBuffer.Length == mBuffer1.Length == 8192
    {
      mBuffer := new byte[CIPHER_BUFFER_SIZE](_ => 0);
      mBuffer1 := new byte[CIPHER_BUFFER_SIZE](_ => 0);
    }

    /**
     * Encrypts at most MAX_ENCRYPT_SIZE octets of `data[dp..]` into `out`; `dp'` points past the octets taken.
     * The parcel it wrote is returned as a ghost. With less than `WorstEncryptLen` of room, the pointer may have
     * moved and nothing been written.
     */
    method Encrypt(data: array<byte>, dp: nat, len: nat, out: array<byte>, size: nat)
      returns (dp': nat, n: nat, ghost parcel: Parcel)
      requires Valid() && data != out && Foreign(data) && Foreign(out)
      requires dp + len <= data.Length && size <= out.Length
      modifies mBuffer, mBuffer1, out
      ensures len == 0 || EstimateEncryptLen(Taken(len)) > size ==> n == 0 && dp' == dp
      ensures len > 0 && EstimateEncryptLen(Taken(len)) <= size ==>
        && dp' == dp + Taken(len)
        && parcel.Valid()
        && parcel.plain == data[dp..dp']
        && (EstimatePackLen(|parcel.Inner()|) > size ==> n == 0)
        && (EstimatePackLen(|parcel.Inner()|) <= size ==>
            n == |parcel.Ciphertext()| <= size && out[..n] == parcel.Ciphertext())
      ensures len > 0 && WorstEncryptLen(Taken(len)) <= size ==>
        dp' == dp + Taken(len) && n == |parcel.Ciphertext()| > 0 && out[..n] == parcel.Ciphertext()
    {
      parcel := Parcel([], 0, []);
      if len <= 0 || size <= 0 {
        return dp, 0, parcel;
      }
      var l := Taken(len);
      if EstimateEncryptLen(l) > size {
        return dp, 0, parcel;
      }
      dp' := dp + l;
      n, parcel := EncodeLayers(data, dp, l);
      WorstCase(parcel);
      CiphertextBounds(parcel);
      n := PackInto(mBuffer, n, out, size);
    }

    /** Copies the plaintext into the first buffer and runs the coders back and forth between the two. */
    method EncodeLayers(data: array<byte>, dp: nat, len: nat) returns (l: nat, ghost parcel: Parcel)
      requires Valid() && Foreign(data)
      requires 0 < len <= MAX_ENCRYPT_SIZE && dp + len <= data.Length
      modifies mBuffer, mBuffer1
      ensures parcel.Valid() && parcel.plain == data[dp..dp + len]
      ensures l <= CIPHER_BUFFER_SIZE && mBuffer[..l] == parcel.Inner()
    {
      hide Shift.Shifted, Padding.Padded;
      ghost var plain := data[dp..dp + len];
      mBuffer[0] := PLAIN;
      Copy(mBuffer, 1, data, dp, len);
      var s, t := mBuffer, mBuffer1;
      l := len + 1;
      ghost var shift: Shift.Amount, pad: seq<byte> := 0, [];
      for i := 0 to |CODES|
        invariant l == len + 1 + 2 * i + |pad| + (if i == 2 then 1 else 0) && l <= CIPHER_BUFFER_SIZE
        invariant i < 2 ==> pad == []
        invariant i == 0 ==> s == mBuffer && t == mBuffer1 && s[..l] == [PLAIN] + plain
        invariant i == 1 ==> s == mBuffer1 && t == mBuffer && s[..l] == [SHIFT] + Shift.Shifted([PLAIN] + plain, shift)
        invariant i == 2 ==> s == mBuffer && s[..l] == Parcel(plain, shift, pad).Inner()
        invariant i == 2 ==> Padding.PaddingAllowed(len + 3, CIPHER_BUFFER_SIZE - 1, |pad|)
      {
        t[0] := CODES[i];
        var n;
        if CODES[i] == SHIFT {
          n, shift := Shift.Encode(s, 0, l, t, 1, CIPHER_BUFFER_SIZE - 1);
        } else {
          n, pad := Padding.Encode(s, 0, l, t, 1, CIPHER_BUFFER_SIZE - 1);
        }
        l := n + 1;
        assert t[..l] == t[..1] + t[1..l];
        s, t := t, s;
      }
      parcel := Parcel(plain, shift, pad);
    }

    /**
     * Decrypts the whole parcels at the front of `data[dp..dp+len]`, a window onto the ciphertext of `ps`, into
     * `out`; `dp'` points past the last whole parcel. `k` counts them.
     */
    method Decrypt(data: array<byte>, dp: nat, len: nat, out: array<byte>, size: nat, ghost ps: seq<Parcel>)
      returns (dp': nat, n: nat, ghost k: nat)
      requires Valid() && data != out && Foreign(data) && Foreign(out)
      requires dp + len <= data.Length && size <= out.Length
      requires AllValid(ps) && Onto(data[dp..dp + len], ps)
      modifies mBuffer, mBuffer1, out
      ensures dp <= dp' <= dp + len && n <= size
      ensures IsDecryption(ps, len, size, k, dp' - dp, out[..n])
    {
      k := 0;
      DecryptNothing(ps, len, size);
      if len <= 0 || size <= 0 || EstimateDecryptLen(len) > size {
        assert out[..0] == [];
        return dp, 0, k;
      }
      dp', n, k := DecryptLoop(data, dp, len, out, size, ps);
    }

    method DecryptLoop(data: array<byte>, dp: nat, len: nat, out: array<byte>, size: nat, ghost ps: seq<Parcel>)
      returns (p1: nat, i: nat, ghost k: nat)
      requires Valid() && data != out && Foreign(data) && Foreign(out)
      requires dp + len <= data.Length && len <= size <= out.Length
      requires AllValid(ps) && Onto(data[dp..dp + len], ps)
      modifies mBuffer, mBuffer1, out
      ensures dp <= p1 <= dp + len && i <= size
      ensures IsDecryption(ps, len, size, k, p1 - dp, out[..i])
    {
      hide *;
      NotOurs(data);
      k, p1, i := 0, dp, 0;
      var rlen := len;
      ghost var w, plain := data[dp..dp + len], [];
      DecryptedNone(ps, len, w);
      while rlen > 0
        invariant dp <= p1 && 0 <= rlen && p1 + rlen == dp + len && 0 <= i <= p1 - dp
        invariant w == data[p1..p1 + rlen] && plain == out[..i]
        invariant Decrypted(ps, len, k, w, plain)
        decreases rlen
      {
        DecryptedNext(ps, len, k, w, plain);
        var p';
        p', i := DecryptParcel(data, p1, rlen, out, i, size, w, ps[k].plain);
        if p' == p1 {
          break;
        }
        w, plain := w[p' - p1..], plain + ps[k].plain;
        rlen, p1, k := rlen - (p' - p1), p', k + 1;
      }
      DecryptedAll(ps, len, size, k, w, plain);
    }

    /** One turn of the `decrypt` loop: unpacks, strips the coders and appends the plaintext. */
    method DecryptParcel(data: array<byte>, p: nat, len: nat, out: array<byte>, i: nat, size: nat,
                         ghost w: seq<byte>, ghost plain: seq<byte>)
      returns (p': nat, i': nat)
      requires Valid() && data != out && Foreign(data) && Foreign(out)
      requires p + len <= data.Length && i + len <= size <= out.Length
      requires w == data[p..p + len] && Decodes(w, plain)
      modifies mBuffer, mBuffer1, out
      ensures match Unpack(w, CIPHER_BUFFER_SIZE)
              case Unfinished => p' == p && i' == i && out[..i] == old(out[..i])
              case Whole(d, c) => p' == p + c && i' == i + |plain| && out[..i'] == old(out[..i]) + plain
      ensures data[p'..p + len] == w[p' - p..]
    {
      hide Unpack, Peel;
      var l;
      p', l := UnpackFrom(data, p, len, mBuffer, CIPHER_BUFFER_SIZE);
      i' := i;
      SubArray(data, p, len, p' - p, p + len - p');
      assert data[p..p + len] == w;
      if l <= 0 {
        return;
      }
      var s;
      s, l := StripLayers(l);
      if i + l < size {
        Copy(out, i, s, 1, l);
        i' := i + l;
      } else {
        assert false;
      }
    }

    /** Runs one decoder from one buffer to the other. */
    method StripOne(s: array<byte>, l: nat, t: array<byte>) returns (n: int)
      requires s != t && s.Length == t.Length == CIPHER_BUFFER_SIZE && 1 <= l <= CIPHER_BUFFER_SIZE
      requires Peel(s[..l]).Plain? && s[0] != PLAIN
      modifies t
      ensures 0 < n < l && Peel(t[..n]) == Peel(s[..l])
    {
      hide Shift.Unshifted;
      ghost var x := s[..l];
      assert s[1..l] == x[1..];
      n := 0;
      if s[0] == SHIFT {
        n := Shift.Decode(s, 1, l - 1, t, CIPHER_BUFFER_SIZE);
      } else if s[0] == PADDING {
        n := Padding.Decode(s, 1, l - 1, t, CIPHER_BUFFER_SIZE);
      }
    }

    /** Runs the decoders back and forth between the two buffers until the id octet 0. */
    method StripLayers(len: nat) returns (s: array<byte>, l: nat)
      requires Valid() && len <= CIPHER_BUFFER_SIZE && Peel(mBuffer[..len]).Plain?
      modifies mBuffer, mBuffer1
      ensures (s == mBuffer || s == mBuffer1) && 1 + l <= s.Length
      ensures s[1..1 + l] == Peel(old(mBuffer[..len])).data
    {
      s, l := mBuffer, len;
      var t := mBuffer1;
      while true
        invariant (s == mBuffer && t == mBuffer1) || (s == mBuffer1 && t == mBuffer)
        invariant l <= CIPHER_BUFFER_SIZE
        invariant Peel(s[..l]) == Peel(old(mBuffer[..len]))
        decreases l
      {
        if l < 1 {
          assert false;
        }
        if s[0] == PLAIN {
          assert s[..l][1..] == s[1..l];
          l := l - 1;
          break;
        }
        var n := StripOne(s, l, t);
        if n <= 0 {
          assert false;
        }
        l := n;
        s, t := t, s;
      }
    }
  }

  const CODES: seq<byte> := [SHIFT, PADDING]

  /** What one parcel takes of a plaintext. */
  function Taken(len: nat): (n: nat)
    ensures n <= len && n <= 4096 && (n == len || n == 4096)
  {
    if len > MAX_ENCRYPT_SIZE then MAX_ENCRYPT_SIZE else len
  }
}
