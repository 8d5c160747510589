/** The length-prefixed sections of a parcel: `pack`, `unpack` and their estimates (Cipher.cpp:199-286). */
module Framing {
  import opened Bytes

  /** One section: its two-octet length, then its octets. */
  function Section(d: seq<byte>): seq<byte> {
    [Hi(|d|), Lo(|d|)] + d
  }

  /** The parcel of `d`: full sections while 1024 octets remain, then one shorter, possibly empty, section. */
  function Pack(d: seq<byte>): seq<byte> {
    if |d| < MAX_SECTION_SIZE then Section(d)
    else Section(d[..MAX_SECTION_SIZE]) + Pack(d[MAX_SECTION_SIZE..])
  }

  /** A parcel shorter than 1024 octets: its length, the high octet first, and the octets. */
  lemma ShortPack(d: seq<byte>)
    requires |d| < 1024
    ensures |Pack(d)| == 2 + |d| && Pack(d)[0] as int * 0x100 + Pack(d)[1] == |d| && Pack(d)[2..] == d
  {
  }

  /** Any other starts with a full section, whose length is 4 times 256. */
  lemma LongPack(d: seq<byte>)
    requires |d| >= 1024
    ensures |Pack(d)| >= 1026 && Pack(d)[..2] == [4, 0]
    ensures Pack(d)[2..1026] == d[..1024] && Pack(d)[1026..] == Pack(d[1024..])
  {
    var first, rest := d[..1024], Pack(d[1024..]);
    assert Pack(d) == [4, 0] + first + rest;
  }

  datatype Unpacked = Whole(payload: seq<byte>, consumed: nat) | Unfinished

  /** Reads one parcel off the front of `s` into a buffer of `cap` octets. */
  function Unpack(s: seq<byte>, cap: nat): (r: Unpacked)
    ensures r.Whole? ==> r.consumed <= |s| && |r.payload| <= cap && |r.payload| + 2 <= r.consumed
  {
    if |s| < 2 then Unfinished
    else
      var l := Word(s[0], s[1]);
      if l > MAX_SECTION_SIZE || l > |s| - 2 || l > cap then Unfinished
      else if l < MAX_SECTION_SIZE then Whole(s[2..2 + l], 2 + l)
      else
        match Unpack(s[2 + l..], cap - l)
        case Unfinished => Unfinished
        case Whole(p, c) => Whole(s[2..2 + l] + p, 2 + l + c)
  }

  lemma {:induction false} PackLength(d: seq<byte>)
    ensures |Pack(d)| == |d| + 2 * (|d| / MAX_SECTION_SIZE + 1)
  {
    if |d| >= MAX_SECTION_SIZE {
      PackLength(d[MAX_SECTION_SIZE..]);
    }
  }

  /** Unpacking by what the first length says. */
  lemma UnpackFirst(s: seq<byte>, l: nat, cap: nat)
    requires |s| >= 2 && Word(s[0], s[1]) == l <= MAX_SECTION_SIZE && l <= |s| - 2 && l <= cap
    ensures l < MAX_SECTION_SIZE ==> Unpack(s, cap) == Whole(s[2..2 + l], 2 + l)
    ensures l == MAX_SECTION_SIZE && Unpack(s[2 + l..], cap - l).Unfinished? ==> Unpack(s, cap) == Unfinished
    ensures l == MAX_SECTION_SIZE && Unpack(s[2 + l..], cap - l).Whole? ==>
      var u := Unpack(s[2 + l..], cap - l); Unpack(s, cap) == Whole(s[2..2 + l] + u.payload, 2 + l + u.consumed)
  {
    hide Word;
  }

  /** Reading one section: a short one ends the parcel, a full one leaves the rest to complete it. */
  lemma UnpackSection(d: seq<byte>, rest: seq<byte>, cap: nat)
    requires |d| <= MAX_SECTION_SIZE && |d| <= cap
    ensures |d| < MAX_SECTION_SIZE ==> Unpack(Section(d) + rest, cap) == Whole(d, 2 + |d|)
    ensures |d| == MAX_SECTION_SIZE ==>
      match Unpack(rest, cap - |d|)
      case Unfinished => Unpack(Section(d) + rest, cap) == Unfinished
      case Whole(p, c) => Unpack(Section(d) + rest, cap) == Whole(d + p, 2 + |d| + c)
  {
    hide Unpack, Word, Hi, Lo;
    var s := Section(d) + rest;
    WordOfHiLo(|d|);
    assert s[0] == Hi(|d|) && s[1] == Lo(|d|);
    assert s[2..2 + |d|] == d;
    assert s[2 + |d|..] == rest;
    UnpackFirst(s, |d|, cap);
  }

  /** `unpack` of a packed parcel followed by anything returns the payload and stops at the parcel's end. */
  lemma {:induction false} UnpackPack(d: seq<byte>, rest: seq<byte>, cap: nat)
    requires |d| <= cap
    ensures Unpack(Pack(d) + rest, cap) == Whole(d, |Pack(d)|)
  {
    hide Unpack;
    if |d| < MAX_SECTION_SIZE {
      UnpackSection(d, rest, cap);
    } else {
      var first, tail := d[..MAX_SECTION_SIZE], d[MAX_SECTION_SIZE..];
      UnpackPack(tail, rest, cap - MAX_SECTION_SIZE);
      UnpackSection(first, Pack(tail) + rest, cap);
      assert Pack(d) + rest == Section(first) + (Pack(tail) + rest);
      assert first + tail == d;
    }
  }

  /** A section cut short is never a whole parcel. */
  lemma UnpackCutSection(d: seq<byte>, n: nat, cap: nat)
    requires |d| <= MAX_SECTION_SIZE && n < 2 + |d|
    ensures Unpack(Section(d)[..n], cap) == Unfinished
  {
    WordOfHiLo(|d|);
  }

  /** Framing is prefix-free: no strict prefix of a packed parcel holds a whole parcel. */
  lemma {:induction false} UnpackStrictPrefix(d: seq<byte>, n: nat, cap: nat)
    requires |d| <= cap && n < |Pack(d)|
    ensures Unpack(Pack(d)[..n], cap) == Unfinished
  {
    hide Unpack;
    if |d| < MAX_SECTION_SIZE {
      UnpackCutSection(d, n, cap);
    } else {
      var first, tail := d[..MAX_SECTION_SIZE], d[MAX_SECTION_SIZE..];
      var m := n - 2 - MAX_SECTION_SIZE;
      if m < 0 {
        UnpackCutSection(first, n, cap);
        assert Pack(d)[..n] == Section(first)[..n];
      } else {
        UnpackStrictPrefix(tail, m, cap - MAX_SECTION_SIZE);
        UnpackSection(first, Pack(tail)[..m], cap);
        assert Pack(d)[..n] == Section(first) + Pack(tail)[..m];
      }
    }
  }

  /** `len + (((len+1024)/1024) << 1) + 2` */
  function EstimatePackLen(len: nat): nat {
    len + (len + MAX_SECTION_SIZE) / MAX_SECTION_SIZE * 2 + 2
  }

  /** What `pack` needs never exceeds its estimate. */
  lemma PackFitsEstimate(d: seq<byte>)
    ensures |Pack(d)| + 2 == EstimatePackLen(|d|)
  {
    PackLength(d);
  }

  /** Before the first section. */
  lemma NothingPacked(d: seq<byte>)
    ensures [] + Pack(d[0..]) == Pack(d) && Pack([]) == [0, 0]
  {
    assert d[0..] == d;
  }

  /** Packs `data[..len]`; 0 when there is nothing to pack or the estimate does not fit. */
  method PackInto(data: array<byte>, len: nat, out: array<byte>, size: nat) returns (n: nat)
    requires data != out
    requires len <= data.Length && size <= out.Length
    modifies out
    ensures len == 0 || EstimatePackLen(len) > size ==> n == 0 && out[..] == old(out[..])
    ensures len > 0 && EstimatePackLen(len) <= size ==>
      n == |Pack(data[..len])| <= size && out[..n] == Pack(data[..len])
  {
    hide *;
    if len <= 0 || size < len {
      EstimateCovers(len);
      return 0;
    }
    if EstimatePackLen(len) > size {
      return 0;
    }
    ghost var d := data[..len];
    PackFitsEstimate(d);
    NothingPacked(d);
    var r, s, t := len, 0, 0;
    var l: nat := MAX_SECTION_SIZE;
    while r > 0
      invariant d == data[..len]
      invariant 0 <= s && 0 <= r && s + r == len && 0 <= t <= |Pack(d)|
      invariant r > 0 ==> l == MAX_SECTION_SIZE
      invariant l == MAX_SECTION_SIZE ==> out[..t] + Pack(d[s..]) == Pack(d)
      invariant l != MAX_SECTION_SIZE ==> out[..t] == Pack(d)
    {
      l := if r < MAX_SECTION_SIZE then r else MAX_SECTION_SIZE;
      PackStep(d, s, l, out[..t]);
      assert d[s..s + l] == data[s..s + l];
      WriteSection(out, t, data, s, l);
      r, s, t := r - l, s + l, t + 2 + l;
    }
    if l == MAX_SECTION_SIZE {
      assert d[s..] == [];
      ghost var done := out[..t];
      out[t] := 0;
      out[t + 1] := 0;
      assert out[..t + 2] == done + [0, 0];
      t := t + 2;
    }
    n := t;
  }

  lemma EstimateCovers(len: nat)
    ensures len < EstimatePackLen(len)
  {
  }

  /** One turn of the `pack` loop. */
  lemma PackStep(d: seq<byte>, s: nat, l: nat, done: seq<byte>)
    requires s <= |d| && l == if |d| - s < MAX_SECTION_SIZE then |d| - s else MAX_SECTION_SIZE
    requires done + Pack(d[s..]) == Pack(d)
    ensures |done| + 2 + l <= |Pack(d)| && (s < |d| ==> 0 < l)
    ensures l < MAX_SECTION_SIZE ==> done + Section(d[s..s + l]) == Pack(d)
    ensures l == MAX_SECTION_SIZE ==> done + Section(d[s..s + l]) + Pack(d[s + l..]) == Pack(d)
  {
    var tail := d[s..];
    if l < MAX_SECTION_SIZE {
      assert d[s..s + l] == tail;
    } else {
      assert tail[..l] == d[s..s + l] && tail[l..] == d[s + l..];
      assert done + Section(tail[..l]) + Pack(tail[l..]) == done + (Section(tail[..l]) + Pack(tail[l..]));
    }
  }

  method WriteSection(out: array<byte>, t: nat, data: array<byte>, s: nat, l: nat)
    requires data != out
    requires s + l <= data.Length && t + 2 + l <= out.Length
    modifies out
    ensures out[..t + 2 + l] == old(out[..t]) + Section(data[s..s + l])
  {
    out[t] := Hi(l);
    out[t + 1] := Lo(l);
    Copy(out, t + 2, data, s, l);
  }

  /** The parcel `whole` begins with `done`, read off `off` octets, and goes on with `part`. */
  ghost predicate Resumes(whole: Unpacked, part: Unpacked, done: seq<byte>, off: nat) {
    match part
    case Unfinished => whole == Unfinished
    case Whole(d, c) => whole == Whole(done + d, off + c)
  }

  lemma ResumesEnd(whole: Unpacked, part: Unpacked, done: seq<byte>, off: nat)
    requires Resumes(whole, part, done, off)
    ensures part.Unfinished? ==> whole == Unfinished
    ensures part.Whole? ==> whole == Whole(done + part.payload, off + part.consumed)
  {
  }

  lemma ResumesFurther(whole: Unpacked, part: Unpacked, rest: Unpacked, done: seq<byte>, off: nat, d: seq<byte>, n: nat)
    requires Resumes(whole, part, done, off) && Resumes(part, rest, d, n)
    ensures Resumes(whole, rest, done + d, off + n)
  {
    if rest.Whole? {
      assert done + (d + rest.payload) == (done + d) + rest.payload;
    }
  }

  /** One turn of the `unpack` loop. */
  lemma UnpackStep(s: seq<byte>, cap: nat)
    requires |s| >= 2
    ensures
      var l := Word(s[0], s[1]);
      if l > MAX_SECTION_SIZE || l > |s| - 2 || l > cap then Unpack(s, cap) == Unfinished
      else if l < MAX_SECTION_SIZE then Unpack(s, cap) == Whole(s[2..2 + l], 2 + l)
      else Resumes(Unpack(s, cap), Unpack(s[2 + l..], cap - l), s[2..2 + l], 2 + l)
  {
  }

  lemma UnpackShort(s: seq<byte>, cap: nat)
    ensures |s| < 2 ==> Unpack(s, cap) == Unfinished
    ensures Resumes(Unpack(s, cap), Unpack(s, cap), [], 0)
  {
    if Unpack(s, cap).Whole? {
      assert [] + Unpack(s, cap).payload == Unpack(s, cap).payload;
    }
  }

  /** Unpacks one parcel from `data[p..p+len]` into `out`; `p'` moves only past a whole parcel. */
  method UnpackFrom(data: array<byte>, p: nat, len: nat, out: array<byte>, size: nat) returns (p': nat, n: nat)
    requires data != out
    requires p + len <= data.Length && size <= out.Length
    modifies out
    ensures match Unpack(data[p..p + len], size)
            case Unfinished => p' == p && n == 0
            case Whole(d, c) => p' == p + c && n == |d| && out[..n] == d
  {
    hide *;
    p' := p;
    n := 0;
    ghost var w := data[p..p + len];
    var r, s, t, sizet := len, p, 0, size;
    ghost var rest := w;
    UnpackShort(w, size);
    while r >= 2
      invariant p' == p && n == 0
      invariant w == data[p..p + len]
      invariant p <= s && 0 <= r && s + r == p + len
      invariant 0 <= t && 0 <= sizet && t + sizet == size
      invariant rest == data[s..s + r]
      invariant Resumes(Unpack(w, size), Unpack(rest, sizet), out[..t], s - p)
    {
      ghost var done, part, at := out[..t], Unpack(rest, sizet), s - p;
      UnpackStep(rest, sizet);
      ResumesEnd(Unpack(w, size), part, done, at);
      var l := TakeSection(data, s, r, out, t, sizet);
      if l < 0 {
        return;
      }
      s, r, t, sizet := s + 2 + l, r - 2 - l, t + l, sizet - l;
      if l != MAX_SECTION_SIZE {
        p' := s;
        n := t;
        return;
      }
      ResumesFurther(Unpack(w, size), part, Unpack(rest[2 + l..], sizet), done, at, rest[2..2 + l], 2 + l);
      rest := rest[2 + l..];
    }
    UnpackShort(rest, sizet);
    ResumesEnd(Unpack(w, size), Unpack(rest, sizet), out[..t], s - p);
  }

  /** Reads one length and copies that section out; -1 when it is oversized, unfinished or does not fit. */
  method TakeSection(data: array<byte>, s: nat, r: nat, out: array<byte>, t: nat, sizet: nat) returns (l: int)
    requires data != out
    requires 2 <= r && s + r <= data.Length && t + sizet <= out.Length
    modifies out
    ensures var w := Word(data[s], data[s + 1]);
      if w > MAX_SECTION_SIZE || w > r - 2 || w > sizet then l == -1
      else
        && l == w
        && out[..t + l] == old(out[..t]) + data[s..s + r][2..2 + l]
        && data[s + 2 + l..s + r] == data[s..s + r][2 + l..]
  {
    l := Word(data[s], data[s + 1]);
    if l > MAX_SECTION_SIZE || l > r - 2 || sizet < l {
      return -1;
    }
    SubArray(data, s, r, 2, l);
    SubArray(data, s, r, 2 + l, r - 2 - l);
    if l > 0 {
      Copy(out, t, data, s + 2, l);
    }
  }
}
