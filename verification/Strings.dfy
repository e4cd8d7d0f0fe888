/** Octet strings, bit strings, and numbers stored as bit strings. */
module Strings {
  import opened Bits
  import opened BitCursor
  import opened Lengths

  // ----- octet strings -----

  function EncOctets(o: seq<byte>): Enc
  {
    Then(EncLength(|o|), Enc(BitsOf(o), true))
  }

  /** The next n octets. */
  function TakeOctets(b: seq<bool>, pos: nat, n: nat): (d: Dec<seq<byte>>)
    ensures d.Ok? ==> |d.val| == n && d.pos == pos + 8 * n
  {
    if n == 0 then Ok([], pos)
    else
      var (o, p) :- TakeOctets(b, pos, n - 1);
      var (v, q) :- DecBits(b, p, 8);
      Ok(o + [U8(v)], q)
  }

  function DecOctets(b: seq<bool>, pos: nat): Dec<seq<byte>>
  {
    var (n, p) :- DecLength(b, pos);
    TakeOctets(b, p, n)
  }

  lemma {:induction false} OctetAt(b: seq<bool>, pos: nat, v: byte)
    requires At(b, pos, ToBits(v, 8))
    ensures DecBits(b, pos, 8) == Ok(v, pos + 8)
  {
    assert Pow2(8) == 256;
    DecAt(b, pos, v, 8);
  }

  lemma {:induction false} TakeOctetsAt(b: seq<bool>, pos: nat, o: seq<byte>)
    requires At(b, pos, BitsOf(o))
    ensures TakeOctets(b, pos, |o|) == Ok(o, pos + 8 * |o|)
  {
    hide ToBits, ToNat, Pow2, Low, At, DecBits;
    if o != [] {
      var n := |o| - 1;
      AtThen(b, pos, BitsOf(o[..n]), ToBits(o[n], 8));
      TakeOctetsAt(b, pos, o[..n]);
      OctetAt(b, pos + 8 * n, o[n]);
      assert o[..n] + [o[n]] == o;
    }
  }

  /** Reading fails for good at the first octet that is not there. */
  lemma {:induction false} TakeOctetsFails(b: seq<bool>, pos: nat, m: nat, n: nat)
    requires m < n && TakeOctets(b, pos, m).Ok? && DecBits(b, TakeOctets(b, pos, m).pos, 8).Fail?
    ensures TakeOctets(b, pos, n).Fail?
    decreases n
  {
    if m < n - 1 {
      TakeOctetsFails(b, pos, m, n - 1);
    }
  }

  lemma TakeOctetsStep(b: seq<bool>, pos: nat, n: nat, o: seq<byte>, p: nat)
    requires TakeOctets(b, pos, n) == Ok(o, p) && DecBits(b, p, 8).Ok?
    ensures TakeOctets(b, pos, n + 1) == Ok(o + [U8(DecBits(b, p, 8).val)], p + 8)
  {
  }

  lemma {:induction false} OctetsRoundTrip(b: seq<bool>, pos: nat, o: seq<byte>)
    requires At(b, pos, EncOctets(o).bits)
    ensures EncOctets(o).ok <==> |o| < 16383
    ensures EncOctets(o).ok ==> DecOctets(b, pos) == Ok(o, pos + |EncOctets(o).bits|)
  {
    hide EncLength, DecLength, BitsOf;
    if EncLength(|o|).ok {
      AtThen(b, pos, EncLength(|o|).bits, BitsOf(o));
      LengthRoundTrip(b, pos, |o|);
      TakeOctetsAt(b, pos + |EncLength(|o|).bits|, o);
    } else {
      LengthRoundTrip(b, pos, |o|);
    }
  }

  /** An octet string of any length. */
  class DynOctstring {
    var octets: array<byte>

    constructor (size: nat)
      ensures fresh(octets) && octets.Length == size
    {
      octets := new byte[size](_ => 0);
    }

    method Resize(newSize: nat)
      modifies this
      ensures fresh(octets) && octets.Length == newSize
    {
      octets := new byte[newSize](_ => 0);
    }

    method Pack(bref: BitRef) returns (code: Code)
      requires bref.Valid() && octets != bref.buffer && octets.Length < TWO_32
      modifies bref`ptr, bref`offset, bref.buffer
      ensures bref.Valid()
      ensures Emits(old(bref.State()), bref.State(), EncOctets(octets[..]), code)
      ensures code != DecodeFail
    {
      hide Emits, Appends, ToBits, BitsOf, EncLength, Then;
      ghost var s, o := bref.State(), octets[..];
      code := PackLength(bref, octets.Length);
      assert octets[..] == o;
      if code != Success {
        EmitsRefused(s, bref.State(), EncLength(|o|), Enc(BitsOf(o), true), code);
        return code;
      }
      ghost var t := bref.State();
      assert octets[..octets.Length] == o;
      code := PackOctets(bref, octets, octets.Length);
      EmitsThen(s, t, bref.State(), EncLength(|o|), Enc(BitsOf(o), true), code);
    }

    method Unpack(bref: BitRef) returns (code: Code)
      requires bref.Valid()
      modifies this, bref`ptr, bref`offset
      ensures bref.Valid() && old(bref.State()).pos <= bref.State().pos
      ensures var d := DecOctets(bref.State().Bits(), old(bref.State()).pos);
              if d.Ok? then code == Success && d == Ok(octets[..], bref.State().pos) else code == DecodeFail
      ensures code == Success ==> fresh(octets)
    {
      hide BitsOf, DecLength, ToNat, TakeOctets;
      var len: u32;
      len, code := UnpackLength(bref);
      if code != Success {
        return code;
      }
      ghost var b, p := bref.State().Bits(), bref.State().pos;
      Resize(len);
      NoneTaken(b, p);
      assert octets[..0] == [];
      var i := 0;
      while i < octets.Length
        invariant bref.Valid() && i <= octets.Length == len && fresh(octets)
        invariant bref.buffer == old(bref.buffer) && bref.max == old(bref.max) && bref.State().Bits() == b
        invariant TakeOctets(b, p, i) == Ok(octets[..i], bref.State().pos)
      {
        var val: u32;
        ghost var o, q := octets[..i], bref.State().pos;
        val, code := bref.Unpack(8);
        if code != Success {
          TakeOctetsFails(b, p, i, len);
          return code;
        }
        TakeOctetsStep(b, p, i, o, q);
        octets[i] := U8(val);
        i := i + 1;
        assert octets[..i] == o + [U8(val)];
      }
      assert octets[..] == octets[..i];
      return Success;
    }
  }

  lemma NoneTaken(b: seq<bool>, pos: nat)
    ensures TakeOctets(b, pos, 0) == Ok([], pos)
  {
  }

  /** The loop shared by the octet string encoders: n octets of 8 bits each. */
  method PackOctets(bref: BitRef, octets: array<byte>, n: nat) returns (code: Code)
    requires bref.Valid() && octets != bref.buffer && n <= octets.Length
    modifies bref`ptr, bref`offset, bref.buffer
    ensures bref.Valid()
    ensures Emits(old(bref.State()), bref.State(), Enc(BitsOf(octets[..n]), true), code)
    ensures code != DecodeFail
  {
    hide Emits, Appends, ToBits, Then, BitsOf;
    ghost var s := bref.State();
    EmitsNothing(s);
    NoOctets();
    assert octets[..0] == [];
    var i := 0;
    while i < n
      invariant bref.Valid() && i <= n && bref.buffer == old(bref.buffer)
      invariant Emits(s, bref.State(), Enc(BitsOf(octets[..i]), true), Success)
    {
      ghost var t := bref.State();
      assert octets[..n][..i] == octets[..i] && octets[..n][..i + 1] == octets[..i + 1];
      code := bref.Pack(octets[i], 8);
      OctetMore(s, t, bref.State(), octets[..n], i, code);
      if code != Success {
        return code;
      }
      i := i + 1;
    }
    return Success;
  }

  lemma NoOctets()
    ensures BitsOf([]) == []
  {
  }

  lemma {:induction false} OctetMore(s: Snap, t: Snap, u: Snap, o: seq<byte>, i: nat, code: Code)
    requires i < |o|
    requires Emits(s, t, Enc(BitsOf(o[..i]), true), Success)
    requires Emits(t, u, Enc(ToBits(o[i], 8), true), code)
    ensures Emits(s, u, Enc(BitsOf(o[..i + 1]), true), code)
    ensures code == EncodeFail ==> Emits(s, u, Enc(BitsOf(o), true), code)
  {
    hide Emits, Appends, ToBits;
    EmitsThen(s, t, u, Enc(BitsOf(o[..i]), true), Enc(ToBits(o[i], 8), true), code);
    assert o[..i + 1][..i] == o[..i];
    if code == EncodeFail {
      assert o == o[..i + 1] + o[i + 1..];
      BitsOfConcat(o[..i + 1], o[i + 1..]);
      EmitsRefused(s, u, Enc(BitsOf(o[..i + 1]), true), Enc(BitsOf(o[i + 1..]), true), code);
    }
  }

  // ----- bit strings -----

  /** The number of octets that hold a bit string. */
  function NofOctets(nbits: nat): nat
  {
    (nbits + 7) / 8
  }

  /** The number of bits in the last octet of a bit string. */
  function TopBitCount(nbits: nat): nat
    requires nbits > 0
  {
    (nbits - 1) % 8 + 1
  }

  /** The bits of k octets, the last octet first. */
  function OctetsDown(buf: seq<byte>, k: nat): (bits: seq<bool>)
    requires k <= |buf|
    ensures |bits| == 8 * k
  {
    if k == 0 then [] else ToBits(buf[k - 1], 8) + OctetsDown(buf, k - 1)
  }

  /** Bit strings are little-endian in memory: the encoding starts with the partial last octet. */
  function EncBitstring(buf: seq<byte>, nbits: nat): Enc
    requires NofOctets(nbits) <= |buf|
  {
    if nbits == 0 then Refused
    else
      var k := NofOctets(nbits) - 1;
      Then(Field(buf[k], TopBitCount(nbits)), Enc(OctetsDown(buf, k), true))
  }

  /** The octets from k - 1 down to 0. */
  function TakeDown(b: seq<bool>, pos: nat, k: nat): (d: Dec<seq<byte>>)
    ensures d.Ok? ==> |d.val| == k && d.pos == pos + 8 * k
    decreases k
  {
    if k == 0 then Ok([], pos)
    else
      var (v, p) :- DecBits(b, pos, 8);
      var (o, q) :- TakeDown(b, p, k - 1);
      Ok(o + [U8(v)], q)
  }

  function DecBitstring(b: seq<bool>, pos: nat, nbits: nat): (d: Dec<seq<byte>>)
    ensures d.Ok? ==> |d.val| == NofOctets(nbits)
  {
    if nbits == 0 then Fail
    else
      var (v, p) :- DecBits(b, pos, TopBitCount(nbits));
      var (o, q) :- TakeDown(b, p, NofOctets(nbits) - 1);
      Ok(o + [U8(v)], q)
  }

  /** A bit string without stray bits above its last one. */
  predicate CleanBitstring(buf: seq<byte>, nbits: nat)
  {
    && |buf| == NofOctets(nbits)
    && (nbits > 0 ==> buf[|buf| - 1] < Pow2(TopBitCount(nbits)))
  }

  lemma {:induction false} TakeDownAt(b: seq<bool>, pos: nat, buf: seq<byte>, k: nat)
    requires k <= |buf| && At(b, pos, OctetsDown(buf, k))
    ensures TakeDown(b, pos, k) == Ok(buf[..k], pos + 8 * k)
    decreases k
  {
    hide ToBits, ToNat, Pow2, TakeDown, DecBits;
    TakeDownStep(b, pos, k);
    if k > 0 {
      var v := buf[k - 1];
      AtThen(b, pos, ToBits(v, 8), OctetsDown(buf, k - 1));
      OctetAt(b, pos, v);
      TakeDownAt(b, pos + 8, buf, k - 1);
      assert buf[..k] == buf[..k - 1] + [v];
    } else {
      assert buf[..0] == [];
    }
  }

  /** Bit strings read back with their stray bits cleared: exactly the clean ones are restored. */
  lemma {:induction false} BitstringRoundTrip(b: seq<bool>, pos: nat, buf: seq<byte>, nbits: nat)
    requires |buf| == NofOctets(nbits) && nbits > 0 && At(b, pos, EncBitstring(buf, nbits).bits)
    ensures var d := DecBitstring(b, pos, nbits);
            && d.Ok? && d.pos == pos + nbits && CleanBitstring(d.val, nbits)
            && (d.val == buf <==> CleanBitstring(buf, nbits))
    ensures |EncBitstring(buf, nbits).bits| == nbits
  {
    hide ToBits, ToNat, Low, Pow2, OctetsDown, TakeDown;
    var k, top := NofOctets(nbits) - 1, TopBitCount(nbits);
    AtThen(b, pos, ToBits(buf[k], top), OctetsDown(buf, k));
    DecAt(b, pos, buf[k], top);
    Pow2Byte(top);
    TakeDownAt(b, pos + top, buf, k);
    assert buf == buf[..k] + [buf[k]];
    if buf[k] < Pow2(top) {
      LowSmall(buf[k], top);
    }
    var d := DecBitstring(b, pos, nbits);
    assert d.val == buf[..k] + [U8(Low(buf[k], top))];
    assert d.val[k] == Low(buf[k], top);
  }

  method PackBitstring(bref: BitRef, buf: array<byte>, nbits: nat) returns (code: Code)
    requires bref.Valid() && buf != bref.buffer && NofOctets(nbits) <= buf.Length
    modifies bref`ptr, bref`offset, bref.buffer
    ensures bref.Valid()
    ensures Emits(old(bref.State()), bref.State(), EncBitstring(buf[..], nbits), code)
    ensures code != DecodeFail
  {
    hide Emits, Appends, ToBits, Then, OctetsDown;
    if nbits == 0 {
      RefusesAll(bref.State());
      return EncodeFail;
    }
    var nOcts := NofOctets(nbits);
    var offset := TopBitCount(nbits);
    ghost var s, o := bref.State(), buf[..];
    ghost var head := Field(o[nOcts - 1], offset);
    code := bref.Pack(buf[nOcts - 1], offset);
    if code != Success {
      EmitsRefused(s, bref.State(), head, Enc(OctetsDown(o, nOcts - 1), true), code);
      return code;
    }
    BitsStart(s, bref.State(), head, o, nOcts - 1);
    var i := 1;
    while i < nOcts
      invariant bref.Valid() && 1 <= i <= nOcts && buf[..] == o && bref.buffer == old(bref.buffer)
      invariant Remains(s, bref.State(), head, o, nOcts - 1, nOcts - i)
    {
      ghost var t := bref.State();
      code := bref.Pack(buf[nOcts - 1 - i], 8);
      BitsMore(s, t, bref.State(), head, o, nOcts - 1, nOcts - i, code);
      if code != Success {
        return code;
      }
      i := i + 1;
    }
    BitsEnd(s, bref.State(), head, o, nOcts - 1);
    return Success;
  }

  /** The octets from m - 1 down to k, which are out; those below k remain. */
  ghost predicate Remains(s: Snap, t: Snap, head: Enc, o: seq<byte>, m: nat, k: nat) {
    && k <= m <= |o|
    && Emits(s, t, Then(head, Enc(OctetsDown(o, m)[..8 * (m - k)], true)), Success)
    && OctetsDown(o, m)[8 * (m - k)..] == OctetsDown(o, k)
  }

  lemma BitsStart(s: Snap, t: Snap, head: Enc, o: seq<byte>, m: nat)
    requires m <= |o| && head.ok && Emits(s, t, head, Success)
    ensures Remains(s, t, head, o, m, m)
  {
    hide OctetsDown, Emits;
    assert head.bits + [] == head.bits;
  }

  lemma BitsEnd(s: Snap, t: Snap, head: Enc, o: seq<byte>, m: nat)
    requires Remains(s, t, head, o, m, 0)
    ensures Emits(s, t, Then(head, Enc(OctetsDown(o, m), true)), Success)
  {
    hide Emits;
    assert OctetsDown(o, m)[..8 * m] == OctetsDown(o, m);
  }

  lemma {:induction false} BitsMore(s: Snap, t: Snap, u: Snap, head: Enc, o: seq<byte>, m: nat, k: nat, code: Code)
    requires k > 0 && head.ok && Remains(s, t, head, o, m, k)
    requires Emits(t, u, Field(o[k - 1], 8), code) && code != DecodeFail
    ensures code == Success ==> Remains(s, u, head, o, m, k - 1)
    ensures code != Success ==> Emits(s, u, Then(head, Enc(OctetsDown(o, m), true)), EncodeFail)
  {
    hide Emits, ToBits;
    var all, d := OctetsDown(o, m), 8 * (m - k);
    var done, x := Enc(all[..d], true), Field(o[k - 1], 8);
    assert all[d..] == x.bits + OctetsDown(o, k - 1);
    assert all[..d + 8] == all[..d] + x.bits && all[d + 8..] == OctetsDown(o, k - 1);
    EmitsThen(s, t, u, Then(head, done), x, code);
    SeqAssoc(head.bits, all[..d], x.bits);
    assert Then(Then(head, done), x) == Then(head, Enc(all[..d + 8], true));
    if code != Success {
      EmitsRefused(s, u, Then(head, Enc(all[..d + 8], true)), Enc(all[d + 8..], true), code);
      SeqAssoc(head.bits, all[..d + 8], all[d + 8..]);
      assert all[..d + 8] + all[d + 8..] == all;
    }
  }

  method UnpackBitstring(buf: array<byte>, bref: BitRef, nbits: nat) returns (code: Code)
    requires bref.Valid() && buf != bref.buffer && NofOctets(nbits) <= buf.Length
    modifies bref`ptr, bref`offset, buf
    ensures bref.Valid() && old(bref.State()).pos <= bref.State().pos
    ensures var d := DecBitstring(bref.State().Bits(), old(bref.State()).pos, nbits);
            if d.Ok? then code == Success && d == Ok(buf[..NofOctets(nbits)], bref.State().pos) else code == DecodeFail
    ensures buf[NofOctets(nbits)..] == old(buf[NofOctets(nbits)..])
  {
    hide BitsOf, ToNat, TakeDown, DecBits, DecBitstring;
    BitstringParts(bref.State().Bits(), bref.State().pos, nbits);
    if nbits == 0 {
      return DecodeFail;
    }
    var nOcts := NofOctets(nbits);
    var offset := TopBitCount(nbits);
    var val: u32;
    val, code := bref.Unpack(offset);
    buf[nOcts - 1] := U8(val);
    if code != Success {
      return code;
    }
    ghost var tail := buf[nOcts - 1..];
    code := UnpackOctetsDown(buf, bref, nOcts - 1);
    JoinTop(buf[..], nOcts, tail);
  }

  lemma JoinTop(buf: seq<byte>, n: nat, tail: seq<byte>)
    requires 0 < n <= |buf| && buf[n - 1..] == tail
    ensures buf[..n] == buf[..n - 1] + [tail[0]] && buf[n..] == tail[1..]
  {
  }

  /** The loop over the whole octets of a bit string: octets k - 1 down to 0. */
  method UnpackOctetsDown(buf: array<byte>, bref: BitRef, k: nat) returns (code: Code)
    requires bref.Valid() && buf != bref.buffer && k <= buf.Length
    modifies bref`ptr, bref`offset, buf
    ensures bref.Valid() && old(bref.State()).pos <= bref.State().pos
    ensures var d := TakeDown(bref.State().Bits(), old(bref.State()).pos, k);
            if d.Ok? then code == Success && d == Ok(buf[..k], bref.State().pos) else code == DecodeFail
    ensures buf[k..] == old(buf[k..])
  {
    hide BitsOf, ToNat, TakeDown, DecBits, Resume;
    ghost var b, p, rest := bref.State().Bits(), bref.State().pos, buf[k..];
    ghost var all := TakeDown(b, p, k);
    ResumeNone(all);
    assert buf[k..k] == [];
    var i := 0;
    while i < k
      invariant bref.Valid() && i <= k
      invariant bref.State().Bits() == b && bref.State().pos == p + 8 * i
      invariant buf[k..] == rest
      invariant all == Resume(TakeDown(b, bref.State().pos, k - i), buf[k - i..k])
    {
      ghost var q, tail, was := bref.State().pos, buf[k - i..k], buf[..];
      TakeDownStep(b, q, k - i);
      var val: u32;
      val, code := bref.Unpack(8);
      buf[k - 1 - i] := U8(val);
      SliceUpdate(was, k - 1 - i, k, U8(val));
      assert buf[..] == was[k - 1 - i := U8(val)];
      if code != Success {
        ResumeFail(tail);
        return code;
      }
      i := i + 1;
      ResumeMore(TakeDown(b, q + 8, k - i), U8(val), tail);
    }
    TakeDownStep(b, bref.State().pos, 0);
    assert buf[0..k] == buf[..k];
    ResumeDone(buf[..k], bref.State().pos);
    return Success;
  }

  /** Continues a partial result of TakeDown with the octets that were read before it. */
  function Resume(d: Dec<seq<byte>>, tail: seq<byte>): Dec<seq<byte>>
  {
    match d
    case Ok(o, q) => Ok(o + tail, q)
    case Fail => Fail
  }

  lemma ResumeNone(d: Dec<seq<byte>>)
    ensures Resume(d, []) == d
  {
    assert d.Ok? ==> d.val + [] == d.val;
  }

  lemma SliceUpdate(o: seq<byte>, lo: nat, hi: nat, v: byte)
    requires lo < hi <= |o|
    ensures o[lo := v][lo..hi] == [v] + o[lo + 1..hi]
    ensures forall k :: hi <= k <= |o| ==> o[lo := v][k..] == o[k..]
  {
  }

  lemma ResumeFail(tail: seq<byte>)
    ensures Resume(Fail, tail) == Fail
  {
  }

  lemma ResumeDone(o: seq<byte>, q: nat)
    ensures Resume(Ok([], q), o) == Ok(o, q)
  {
    assert [] + o == o;
  }

  /** A bit string is its partial octet and then whole octets. */
  lemma BitstringParts(b: seq<bool>, pos: nat, nbits: nat)
    ensures nbits == 0 ==> DecBitstring(b, pos, nbits).Fail?
    ensures nbits > 0 ==>
              DecBitstring(b, pos, nbits) ==
                var top := DecBits(b, pos, TopBitCount(nbits));
                if top.Fail? then Fail
                else Resume(TakeDown(b, pos + TopBitCount(nbits), NofOctets(nbits) - 1), [U8(top.val)])
  {
  }

  lemma ResumeMore(d: Dec<seq<byte>>, v: byte, tail: seq<byte>)
    ensures Resume(Resume(d, [v]), tail) == Resume(d, [v] + tail)
  {
    if d.Ok? {
      assert (d.val + [v]) + tail == d.val + ([v] + tail);
    }
  }

  lemma TakeDownStep(b: seq<bool>, pos: nat, k: nat)
    ensures k == 0 ==> TakeDown(b, pos, k) == Ok([], pos)
    ensures k > 0 ==> TakeDown(b, pos, k) ==
                        if DecBits(b, pos, 8).Ok? then Resume(TakeDown(b, pos + 8, k - 1), [U8(DecBits(b, pos, 8).val)])
                        else Fail
  {
  }

  // ----- numbers as bit strings -----

  /** The octets of a number of nbits bits, least significant octet first. */
  function NumberOctets(number: nat, nbits: nat): (o: seq<byte>)
    ensures |o| == NofOctets(nbits)
  {
    seq(NofOctets(nbits), i requires 0 <= i < NofOctets(nbits) =>
      U8(Low(Shr(number, 8 * i), if i == NofOctets(nbits) - 1 then TopBitCount(nbits) else 8)))
  }

  /** Stores a number as a bit string; numbers of more than 64 bits are not supported. */
  method NumberToBitstring(buf: array<byte>, number: nat, nbits: nat)
    requires nbits <= 64 ==> NofOctets(nbits) <= buf.Length
    modifies buf
    ensures nbits > 64 ==> buf[..] == old(buf[..])
    ensures nbits <= 64 ==> buf[..] == NumberOctets(number, nbits) + old(buf[NofOctets(nbits)..])
  {
    hide Low, Shr, And, Pow2, Shl32;
    if nbits > 64 {
      return;
    }
    var nofBytes := NofOctets(nbits);
    var i := 0;
    while i < nofBytes
      invariant i <= nofBytes && buf[nofBytes..] == old(buf[nofBytes..])
      invariant forall j :: 0 <= j < i ==> buf[j] == U8(Low(Shr(number, 8 * j), 8))
    {
      LowOctet(Shr(number, i * 8));
      buf[i] := And(Shr(number, i * 8), 0xff);
      i := i + 1;
    }
    var offset := nbits % 8;
    if offset > 0 {
      CleanUp(Shr(number, 8 * (nofBytes - 1)), offset);
      buf[nofBytes - 1] := And(buf[nofBytes - 1], U8(Shl32(1, offset) - 1));
    }
    assert buf[..nofBytes] == NumberOctets(number, nbits);
    assert buf[..] == buf[..nofBytes] + buf[nofBytes..];
  }

  lemma {:induction false} LowOctet(v: nat)
    ensures And(v, 0xff) == Low(v, 8) == U8(Low(v, 8)) < 256
  {
    AndLowMask(v, 8);
    assert Pow2(8) == 256;
  }

  lemma {:induction false} CleanUp(v: nat, k: nat)
    requires 0 < k < 8
    ensures And(U8(Low(v, 8)), U8(Shl32(1, k) - 1)) == U8(Low(v, k)) == Low(v, k) < 256
  {
    hide And, Low, Shl32, Pow2;
    LowOctet(v);
    Shl32One(k);
    Pow2Byte(k);
    AndLowMask(Low(v, 8), k);
    LowLow(v, 8, k);
  }

  /** The octets of a number, last octet first, are the bits of the number. */
  lemma {:induction false} OctetsDownNumber(number: nat, o: seq<byte>, k: nat)
    requires k <= |o| && forall i :: 0 <= i < k ==> o[i] == U8(Low(Shr(number, 8 * i), 8))
    ensures OctetsDown(o, k) == ToBits(number, 8 * k)
  {
    if k > 0 {
      hide ToBits, Low, Shr;
      OctetsDownNumber(number, o, k - 1);
      var x := Shr(number, 8 * (k - 1));
      LowOctet(x);
      ToBitsLow(x, 8);
      ToBitsSplit(number, 8, 8 * (k - 1));
      ToBitsLow(number, 8 * (k - 1));
    } else {
      NoBitsLeft(number);
    }
  }

  lemma NoBitsLeft(v: nat)
    ensures ToBits(v, 0) == []
  {
  }

  /** Storing a number as a bit string and packing that writes the very bits that packing the number writes:
      for every width of the packing call, and beyond it up to 64 bits. */
  lemma {:induction false} NumberAsBitstring(number: nat, nbits: nat)
    requires 0 < nbits <= 64
    ensures EncBitstring(NumberOctets(number, nbits), nbits) == Enc(ToBits(number, nbits), true)
    ensures CleanBitstring(NumberOctets(number, nbits), nbits)
  {
    hide ToBits, Low, Shr, Pow2;
    var k, top := NofOctets(nbits) - 1, TopBitCount(nbits);
    var o := NumberOctets(number, nbits);
    var x := Shr(number, 8 * k);
    OctetsDownNumber(number, o, k);
    Pow2Byte(top);
    assert o[k] == Low(x, top);
    ToBitsLow(x, top);
    ToBitsSplit(number, top, 8 * k);
    ToBitsLow(number, 8 * k);
    assert nbits == top + 8 * k;
  }
}
