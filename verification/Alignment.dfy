/** When an open-type field with an aligned number in its body survives. The body is written at the start of a side
    buffer but read in place, so that writer and reader may disagree on the byte boundaries. */
module Alignment {
  import opened Bits
  import opened BitCursor
  import opened Integers
  import opened Lengths
  import opened OpenField
  import opened RoundTrips
  import opened Schema

  /** A number in whole octets, behind the padding of its writer, is one big-endian number. */
  lemma {:induction false} PaddedNumber(pad: nat, z: nat, o: nat, k: nat)
    requires o < Pow2(k)
    ensures Zeros(pad) + Zeros(z) + ToBits(o, k) == ToBits(o, pad + z + k)
  {
    hide ToBits, Pow2, Shr, Low;
    LowSmall(o, k);
    ToBitsSplit(o, pad + z, k);
    ToBitsZero(pad + z);
    assert Zeros(pad) + Zeros(z) == Zeros(pad + z);
  }

  lemma {:induction false} ShrSmaller(o: nat, d: nat)
    ensures Shr(o, d) <= o && (Shr(o, d) == o <==> d == 0 || o == 0)
  {
    if d > 0 {
      ShrSmaller(o / 2, d - 1);
    }
  }

  /** Reading n bits of a number that ends d bits behind them gives the number shifted right. */
  lemma {:induction false} ReadsShifted(b: seq<bool>, at: nat, o: nat, r: nat, n: nat, d: nat)
    requires At(b, at, ToBits(o, r + n + d)) && o < Pow2(n)
    ensures DecBits(b, at + r, n) == Ok(Shr(o, d), at + r + n)
  {
    hide ToBits, Pow2, Shr, Low, DecBits, At;
    var w := Shr(o, d);
    ToBitsSplit(o, r + n, d);
    AtThen(b, at, ToBits(w, r + n), ToBits(Low(o, d), d));
    ToBitsSplit(w, r, n);
    AtThen(b, at, ToBits(Shr(w, n), r), ToBits(Low(w, n), n));
    ToBitsLow(w, n);
    ShrSmaller(o, d);
    DecAt(b, at + r, w, n);
  }

  /** What the reader makes of an aligned number whose writer padded by pad bits, when it pads by Pad(at) bits itself:
      with less padding it reads the offset shifted right, with more it ends behind the number. */
  lemma {:induction false} AlignedElsewhere(t: IntType, lb: int, ub: int, n: int, b: seq<bool>, at: nat, pad: nat)
    requires GoodAligned(t, lb, ub) && InOctets(lb, ub) && lb <= n <= ub
    requires At(b, at, Zeros(pad) + Zeros(OctetBits(lb, ub) - RangeBits(lb, ub)) + ToBits(n - lb, RangeBits(lb, ub)))
    ensures var d := DecAligned(t, b, at, lb, ub);
            && (d.Ok? ==> d.pos == at + Pad(at) + OctetBits(lb, ub))
            && (Pad(at) <= pad ==> d.Ok? && (d.val == n <==> Pad(at) == pad || n == lb))
  {
    hide ToBits, Pow2, CeilLog2, Shr, At, Zeros, DecBits, t.Wrap, t.Modulus, Pad;
    var k, octets, o, r := RangeBits(lb, ub), OctetBits(lb, ub), n - lb, Pad(at);
    AlignedSizes(t, lb, ub);
    PaddedNumber(pad, octets - k, o, k);
    if r <= pad {
      FitsOctets(o, k, octets);
      InBounds(b, at, ToBits(o, pad + octets));
      ReadsShifted(b, at, o, r, octets, pad - r);
      ShrSmaller(o, pad - r);
      WrapOffset(t, Shr(o, pad - r), lb);
    }
  }

  lemma InBounds(b: seq<bool>, at: nat, bits: seq<bool>)
    requires At(b, at, bits)
    ensures at + |bits| <= |b|
  {
  }

  lemma {:induction false} FitsOctets(o: nat, k: nat, n: nat)
    requires o < Pow2(k) && k <= n
    ensures o < Pow2(n)
  {
    Pow2Mono(k, n);
  }

  lemma {:induction false} StoredOffset(t: IntType, lb: int, ub: int, n: int, pos: nat)
    requires GoodAligned(t, lb, ub) && InOctets(lb, ub) && lb <= n <= ub
    ensures EncAligned(U32(t.Wrap(n - lb)), lb, ub, pos).bits
            == Zeros(Pad(pos)) + Zeros(OctetBits(lb, ub) - RangeBits(lb, ub)) + ToBits(n - lb, RangeBits(lb, ub))
  {
    hide ToBits, Pow2, CeilLog2, Low, t.Wrap, t.Modulus, Pad, Zeros;
    AlignedSizes(t, lb, ub);
    OffsetBits(t, n - lb, RangeBits(lb, ub));
    SameLowBits(U32(t.Wrap(n - lb)), n - lb, RangeBits(lb, ub));
  }

  lemma PadsAlike(pos: nat, p: nat, x: nat)
    requires p == pos + 8 || p == pos + 16
    ensures Pad(p + x) == Pad(pos + x) && (Pad(pos + x) == Pad(x) <==> pos % 8 == 0)
  {
    hide Pad;
    PadShift(pos + x, 8);
    PadShift(pos + x, 16);
    SamePad(pos + x, x);
    RestOfSum(pos, x);
  }

  lemma PadShift(q: nat, d: nat)
    requires d == 8 || d == 16
    ensures Pad(q + d) == Pad(q)
  {
  }

  lemma SamePad(a: nat, b: nat)
    ensures Pad(a) == Pad(b) <==> a % 8 == b % 8
  {
    var x, y := a % 8, b % 8;
    assert Pad(a) == (if x == 0 then 0 else 8 - x) && Pad(b) == (if y == 0 then 0 else 8 - y);
  }

  lemma RestOfSum(a: nat, b: nat)
    ensures (a + b) % 8 == b % 8 <==> a % 8 == 0
  {
    var q, r, u := a / 8, a % 8, b / 8;
    assert a + b == 8 * (q + u) + (r + b % 8);
  }

  lemma PadZero()
    ensures Pad(0) == 0
  {
  }

  lemma WholeOctetBody(x: nat, n: nat)
    requires n % 8 == 0
    ensures (x + Pad(x) + n + 7) / 8 * 8 == x + Pad(x) + n
  {
  }

  /** A field that ends with an aligned number, in whole octets, behind anything that does not depend on byte
      boundaries. */
  function Tailed(x: Schema, t: IntType, lb: int, ub: int): Schema
  {
    Open(Both(x, Aligned(t, lb, ub)))
  }

  ghost predicate GoodTail(x: Schema, a: Value, t: IntType, lb: int, ub: int, n: int) {
    && Good(Tailed(x, t, lb, ub)) && Matches(Tailed(x, t, lb, ub), Pair(a, Num(n)))
    && Good(x) && Matches(x, a) && !HasAligned(x) && Grounded(x, a, 0) && Encode(x, a, 0).ok
    && GoodAligned(t, lb, ub) && InOctets(lb, ub) && lb <= n <= ub
    && |Encode(x, a, 0).bits| + Pad(|Encode(x, a, 0).bits|) + OctetBits(lb, ub) <= SIDE_BITS
  }

  /** Such a field reads back exactly when it starts on a byte boundary, or its number is the lower bound and the
      reader pads less than the writer did; given that its front comes back. */
  lemma {:induction false} AlignedTail(x: Schema, a: Value, t: IntType, lb: int, ub: int, n: int,
                                       b: seq<bool>, pos: nat)
    requires GoodTail(x, a, t, lb, ub, n)
    requires At(b, pos, Encode(Tailed(x, t, lb, ub), Pair(a, Num(n)), pos).bits)
    ensures var s, v, size := Tailed(x, t, lb, ub), Pair(a, Num(n)), |Encode(x, a, 0).bits|;
            Decode(s, b, pos) == Ok(v, pos + |Encode(s, v, pos).bits|)
            <==> Sized(x, a) && Kept(x, a) && (pos % 8 == 0 || (n == lb && Pad(pos + size) < Pad(size)))
  {
    hide Encode, Decode, Grounded, Sized, Kept, Good, Matches, HasAligned, Reports, EncOpen, DecLength, DecAligned,
      At, Zeros, ToBits, Pad, CeilLog2, Clip;
    var al, v := Aligned(t, lb, ub), Pair(a, Num(n));
    var body, e := Both(x, al), Encode(x, a, 0);
    IsGood(x, a, t, lb, ub, n);
    var tail := TailBits(x, a, t, lb, ub, n, pos);
    var p := OpenParts(b, pos, e.bits + tail);
    AtThen(b, p, e.bits, tail);
    SamePlaces(x, p, 0);
    RoundTrip(x, a, 0, b, p);
    AlignedElsewhere(t, lb, ub, n, b, p + |e.bits|, Pad(|e.bits|));
    PadsAlike(pos, p, |e.bits|);
    NumberDecodes(t, lb, ub, b, p + |e.bits|);
    OpenDecodes(body, b, pos);
    BothDecodes(x, al, b, p);
  }

  lemma SamePlaces(x: Schema, p: nat, q: nat)
    requires !HasAligned(x)
    ensures SamePlace(x, p, q)
  {
  }

  lemma NumberDecodes(t: IntType, lb: int, ub: int, b: seq<bool>, pos: nat)
    requires GoodAligned(t, lb, ub)
    ensures Good(Aligned(t, lb, ub))
    ensures var d := DecAligned(t, b, pos, lb, ub);
            Decode(Aligned(t, lb, ub), b, pos) == if d.Ok? then Ok(Num(d.val), d.pos) else Fail
  {
    hide DecAligned;
  }

  /** The bits of the field, and of the number in its body. */
  lemma {:induction false} TailBits(x: Schema, a: Value, t: IntType, lb: int, ub: int, n: int, pos: nat)
    returns (tail: seq<bool>)
    requires GoodTail(x, a, t, lb, ub, n)
    ensures var s, v, e := Tailed(x, t, lb, ub), Pair(a, Num(n)), Encode(x, a, 0);
            && Good(s) && Matches(s, v) && Encode(s, v, pos).bits == EncOpen(e.bits + tail).bits
            && |e.bits + tail| <= SIDE_BITS && |e.bits + tail| == (|e.bits + tail| + 7) / 8 * 8
    ensures var size, k := |Encode(x, a, 0).bits|, RangeBits(lb, ub);
            && |tail| == Pad(size) + OctetBits(lb, ub) && k <= OctetBits(lb, ub)
            && tail == Zeros(Pad(size)) + Zeros(OctetBits(lb, ub) - k) + ToBits(n - lb, k)
  {
    hide Encode, Grounded, Sized, Kept, HasAligned, Reports, EncOpen, Zeros, ToBits, Pad, CeilLog2, Clip;
    var al, v := Aligned(t, lb, ub), Pair(a, Num(n));
    var body, e := Both(x, al), Encode(x, a, 0);
    IsGood(x, a, t, lb, ub, n);
    OpenEncodes(body, v, pos);
    BothEncodes(x, al, v, 0);
    NumberEncodes(t, lb, ub, n, |e.bits|);
    StoredOffset(t, lb, ub, n, |e.bits|);
    AlignedSizes(t, lb, ub);
    hide EncAligned, RangeBits, U32, OctetBits;
    tail := Encode(al, Num(n), |e.bits|).bits;
    TailSize(Pad(|e.bits|), lb, ub, n);
    WholeOctetBody(|e.bits|, OctetBits(lb, ub));
    ClipNothing(e.bits + tail);
  }

  lemma TailSize(pad: nat, lb: int, ub: int, n: int)
    requires lb <= n <= ub && RangeBits(lb, ub) <= OctetBits(lb, ub)
    ensures |Zeros(pad) + Zeros(OctetBits(lb, ub) - RangeBits(lb, ub)) + ToBits(n - lb, RangeBits(lb, ub))|
            == pad + OctetBits(lb, ub)
    ensures OctetBits(lb, ub) % 8 == 0
  {
    OctetsWhole(lb, ub);
    ZerosSize(pad);
    ZerosSize(OctetBits(lb, ub) - RangeBits(lb, ub));
    hide ToBits, RangeBits, OctetBits, Zeros;
  }

  lemma ClipNothing(bits: seq<bool>)
    ensures |bits| <= SIDE_BITS ==> Clip(bits, SIDE_BITS) == bits
  {
  }

  lemma IsGood(x: Schema, a: Value, t: IntType, lb: int, ub: int, n: int)
    requires Good(x) && Matches(x, a) && GoodAligned(t, lb, ub) && lb <= n <= ub
    ensures Good(Both(x, Aligned(t, lb, ub))) && Matches(Both(x, Aligned(t, lb, ub)), Pair(a, Num(n)))
    ensures Good(Aligned(t, lb, ub)) && Matches(Aligned(t, lb, ub), Num(n))
  {
  }

  lemma NumberEncodes(t: IntType, lb: int, ub: int, n: int, pos: nat)
    requires GoodAligned(t, lb, ub) && lb <= n <= ub
    ensures Good(Aligned(t, lb, ub)) && Matches(Aligned(t, lb, ub), Num(n))
    ensures Encode(Aligned(t, lb, ub), Num(n), pos) == EncAligned(U32(t.Wrap(n - lb)), lb, ub, pos)
  {
  }

  /** With nothing in front of it, the number reads back exactly when the field starts on a byte boundary. */
  lemma {:induction false} AlignedInOpenField(t: IntType, lb: int, ub: int, n: int, b: seq<bool>, pos: nat)
    requires GoodAligned(t, lb, ub) && InOctets(lb, ub) && lb <= n <= ub
    requires var s := Open(Aligned(t, lb, ub)); At(b, pos, Encode(s, Num(n), pos).bits)
    ensures var s := Open(Aligned(t, lb, ub));
            Decode(s, b, pos) == Ok(Num(n), pos + |Encode(s, Num(n), pos).bits|) <==> pos % 8 == 0
  {
    hide Encode, Decode, Grounded, Sized, Kept, Good, Matches, Reports, EncOpen, DecLength, DecAligned, At, Zeros,
      ToBits, Pad, CeilLog2, Clip;
    var al := Aligned(t, lb, ub);
    NumberIsGood(t, lb, ub, n);
    OpenEncodes(al, Num(n), pos);
    var bits := Encode(al, Num(n), 0).bits;
    NumberEncodes(t, lb, ub, n, 0);
    StoredOffset(t, lb, ub, n, 0);
    AlignedSizes(t, lb, ub);
    TailSize(Pad(0), lb, ub, n);
    hide EncAligned, RangeBits, U32, OctetBits;
    PadZero();
    WholeOctetBody(0, OctetBits(lb, ub));
    ClipNothing(bits);
    var p := OpenParts(b, pos, bits);
    AlignedElsewhere(t, lb, ub, n, b, p, 0);
    PadsAlike(pos, p, 0);
    NumberDecodes(t, lb, ub, b, p);
    OpenDecodes(al, b, pos);
  }

  lemma NumberIsGood(t: IntType, lb: int, ub: int, n: int)
    requires GoodAligned(t, lb, ub) && lb <= n <= ub
    ensures Good(Open(Aligned(t, lb, ub))) && Matches(Open(Aligned(t, lb, ub)), Num(n))
  {
  }

  // ----- with a field behind the number -----

  lemma {:induction false} ZerosUpwards(bits: seq<bool>, d: nat, i: nat)
    requires 0 < d && i < |bits| && forall k :: 0 <= k < |bits| ==> bits[k] == (k >= d && bits[k - d])
    ensures !bits[i]
  {
    assert bits[i] == (i >= d && bits[i - d]);
    if i >= d {
      ZerosUpwards(bits, d, i - d);
    }
  }

  lemma {:induction false} ZerosDownwards(bits: seq<bool>, d: nat, i: nat)
    requires 0 < d && i < |bits| && forall k :: 0 <= k < |bits| ==> bits[k] == (k + d < |bits| && bits[k + d])
    ensures !bits[i]
    decreases |bits| - i
  {
    assert bits[i] == (i + d < |bits| && bits[i + d]);
    if i + d < |bits| {
      ZerosDownwards(bits, d, i + d);
    }
  }

  /** What a window of the size of some bits shows when it is laid over them and the zeros around them. */
  ghost predicate Shows(seen: seq<bool>, bits: seq<bool>, pad: nat, r: nat) {
    && |seen| == |bits|
    && forall k :: 0 <= k < |bits| ==> seen[k] == (pad <= r + k < pad + |bits| && bits[r + k - pad])
  }

  lemma Seen(b: seq<bool>, at: nat, pad: nat, bits: seq<bool>, rest: nat, r: nat)
    requires At(b, at, Zeros(pad) + bits + Zeros(rest)) && r <= pad + rest
    ensures at + r + |bits| <= |b| && Shows(b[at + r..at + r + |bits|], bits, pad, r)
  {
    var t, n := Zeros(pad) + bits + Zeros(rest), |bits|;
    assert |t| == pad + n + rest;
    SliceOfSlice(b, at, |t|, r, n);
    var seen := t[r..r + n];
    forall k | 0 <= k < n
      ensures seen[k] == (pad <= r + k < pad + n && bits[r + k - pad])
    {
      assert seen[k] == t[r + k];
    }
  }

  lemma SliceOfSlice(b: seq<bool>, at: nat, len: nat, r: nat, n: nat)
    requires at + len <= |b| && r + n <= len
    ensures b[at..at + len][r..r + n] == b[at + r..at + r + n]
  {
    var x, y := b[at..at + len][r..r + n], b[at + r..at + r + n];
    assert |x| == |y|;
    forall k | 0 <= k < n
      ensures x[k] == y[k]
    {
      assert x[k] == b[at..at + len][r + k] == b[at + (r + k)];
      assert y[k] == b[at + r + k];
    }
  }

  lemma {:induction false} ShowsItself(bits: seq<bool>, pad: nat, r: nat)
    requires Shows(bits, bits, pad, r) && r != pad
    ensures bits == Zeros(|bits|)
  {
    forall i | 0 <= i < |bits|
      ensures !bits[i]
    {
      if r < pad {
        ShowsUp(bits, pad, r);
        ZerosUpwards(bits, pad - r, i);
      } else {
        ShowsDown(bits, pad, r);
        ZerosDownwards(bits, r - pad, i);
      }
    }
  }

  lemma ShowsUp(bits: seq<bool>, pad: nat, r: nat)
    requires Shows(bits, bits, pad, r) && r < pad
    ensures forall k :: 0 <= k < |bits| ==> bits[k] == (k >= pad - r && bits[k - (pad - r)])
  {
  }

  lemma ShowsDown(bits: seq<bool>, pad: nat, r: nat)
    requires Shows(bits, bits, pad, r) && r > pad
    ensures forall k :: 0 <= k < |bits| ==> bits[k] == (k + (r - pad) < |bits| && bits[k + (r - pad)])
  {
  }

  lemma ShowsSame(seen: seq<bool>, bits: seq<bool>, pad: nat, r: nat)
    requires Shows(seen, bits, pad, r) && (r == pad || bits == Zeros(|bits|))
    ensures seen == bits
  {
  }

  /** Bits between zeros, seen through a window of their size that may be off, are seen as they are exactly if it is
      not off, or if they are all zeros. */
  lemma {:induction false} Window(b: seq<bool>, at: nat, pad: nat, bits: seq<bool>, rest: nat, r: nat)
    requires At(b, at, Zeros(pad) + bits + Zeros(rest)) && r <= pad + rest
    ensures at + r + |bits| <= |b|
    ensures b[at + r..at + r + |bits|] == bits <==> r == pad || bits == Zeros(|bits|)
  {
    Seen(b, at, pad, bits, rest, r);
    hide Shows, At, Zeros;
    var seen := b[at + r..at + r + |bits|];
    if r == pad || bits == Zeros(|bits|) {
      ShowsSame(seen, bits, pad, r);
    } else if seen == bits {
      ShowsItself(bits, pad, r);
    }
  }

  lemma {:induction false} FieldIs(b: seq<bool>, pos: nat, n: nat, o: nat)
    requires pos + n <= |b| && o < Pow2(n)
    ensures DecBits(b, pos, n).Ok? && (DecBits(b, pos, n).val == o <==> b[pos..pos + n] == ToBits(o, n))
  {
    hide ToNat, ToBits, Pow2, Low;
    ToBitsToNat(b[pos..pos + n]);
    ToNatToBits(o, n);
    LowSmall(o, n);
  }

  lemma {:induction false} AlignedIs(t: IntType, lb: int, ub: int, n: int, b: seq<bool>, at: nat)
    requires GoodAligned(t, lb, ub) && InOctets(lb, ub) && lb <= n <= ub
    requires at + Pad(at) + OctetBits(lb, ub) <= |b|
    ensures var d, p, k := DecAligned(t, b, at, lb, ub), at + Pad(at), OctetBits(lb, ub);
            d.Ok? && d.pos == p + k && (d.val == n <==> b[p..p + k] == ToBits(n - lb, k))
  {
    hide ToBits, ToNat, Pow2, CeilLog2, t.Wrap, Pad;
    var k := OctetBits(lb, ub);
    AlignedSizes(t, lb, ub);
    FitsOctets(n - lb, RangeBits(lb, ub), k);
    FieldIs(b, at + Pad(at), k, n - lb);
    OctetsInType(t, lb, ub, DecBits(b, at + Pad(at), k).val);
    WrapOffset(t, DecBits(b, at + Pad(at), k).val, lb);
  }

  lemma {:induction false} OctetsInType(t: IntType, lb: int, ub: int, v: nat)
    requires GoodAligned(t, lb, ub) && InOctets(lb, ub) && v < Pow2(OctetBits(lb, ub))
    ensures v < t.Modulus()
  {
    hide Pow2, CeilLog2;
    AlignedSizes(t, lb, ub);
    Pow2Mono(OctetBits(lb, ub), 16);
    Pow2Half();
  }

  lemma {:induction false} UnalignedIs(lo: int, hi: int, m: int, b: seq<bool>, at: nat)
    requires lo <= m <= hi && at + RangeBits(lo, hi) <= |b|
    ensures var d, k := DecUnaligned(b, at, lo, hi), RangeBits(lo, hi);
            (d.Ok? && d.val == m) <==> b[at..at + k] == ToBits(m - lo, k)
  {
    hide ToBits, Pow2, CeilLog2;
    FieldIs(b, at, RangeBits(lo, hi), m - lo);
  }

  lemma {:induction false} ZeroIs(o: nat, n: nat)
    requires o < Pow2(n)
    ensures ToBits(o, n) == Zeros(n) <==> o == 0
  {
    hide ToBits, ToNat, Pow2, Low;
    ToBitsZero(n);
    ToNatToBits(o, n);
    ToNatToBits(0, n);
    LowSmall(o, n);
    Pow2Positive(n);
    LowSmall(0, n);
  }

  lemma Pow2Positive(n: nat)
    ensures 0 < Pow2(n)
  {
    hide Pow2;
  }

  lemma ZerosConcat(x: seq<bool>, y: seq<bool>)
    ensures x + y == Zeros(|x + y|) <==> x == Zeros(|x|) && y == Zeros(|y|)
  {
    var z := x + y;
    assert z[..|x|] == x && z[|x|..] == y;
    assert Zeros(|z|)[..|x|] == Zeros(|x|) && Zeros(|z|)[|x|..] == Zeros(|y|);
  }

  lemma SlicesAre(s: seq<bool>, x: seq<bool>, y: seq<bool>)
    requires |s| == |x| + |y|
    ensures s == x + y <==> s[..|x|] == x && s[|x|..] == y
  {
    assert (x + y)[..|x|] == x && (x + y)[|x|..] == y;
    assert s == s[..|x|] + s[|x|..];
  }

  /** A field whose body is anything that does not depend on byte boundaries, an aligned number in whole octets, and an
      unaligned number. */
  function Framed(x: Schema, t: IntType, lb: int, ub: int, u: IntType, lo: int, hi: int): Schema
  {
    Open(Both(x, Both(Aligned(t, lb, ub), Unaligned(u, lo, hi))))
  }

  ghost predicate GoodFrame(x: Schema, a: Value, t: IntType, lb: int, ub: int, n: int,
                            u: IntType, lo: int, hi: int, m: int)
  {
    && Good(Framed(x, t, lb, ub, u, lo, hi))
    && Matches(Framed(x, t, lb, ub, u, lo, hi), Pair(a, Pair(Num(n), Num(m))))
    && Good(x) && Matches(x, a) && !HasAligned(x) && Grounded(x, a, 0) && Encode(x, a, 0).ok
    && GoodAligned(t, lb, ub) && InOctets(lb, ub) && lb <= n <= ub
    && GoodRange(u, lo, hi) && lo <= m <= hi
    && |Encode(x, a, 0).bits| + Pad(|Encode(x, a, 0).bits|) + OctetBits(lb, ub) + RangeBits(lo, hi) <= SIDE_BITS
  }

  /** What the reader of the two numbers makes of their bits, behind zeros and in front of them, when it pads by Pad(at)
      bits: it finds them exactly if that is the writer's padding, or if all bits are zeros and it does not run past
      the zeros behind them. */
  lemma {:induction false} NumbersElsewhere(t: IntType, lb: int, ub: int, n: int, lo: int, hi: int, m: int,
                                            b: seq<bool>, at: nat, pad: nat, rest: nat)
    requires GoodAligned(t, lb, ub) && InOctets(lb, ub) && lb <= n <= ub && lo <= m <= hi
    requires var bits := ToBits(n - lb, OctetBits(lb, ub)) + ToBits(m - lo, RangeBits(lo, hi));
             At(b, at, Zeros(pad) + bits + Zeros(rest))
    ensures var d := DecAligned(t, b, at, lb, ub);
            && (d.Ok? ==> d.pos == at + Pad(at) + OctetBits(lb, ub))
            && (Pad(at) <= pad + rest ==>
                  d.Ok? &&
                  var e := DecUnaligned(b, d.pos, lo, hi);
                  (d.val == n && e.Ok? && e.val == m) <==> Pad(at) == pad || (n == lb && m == lo))
  {
    hide ToBits, Pow2, CeilLog2, At, DecUnaligned, t.Wrap, t.Modulus, Pad, Zeros, DecBits;
    var k, w, r := OctetBits(lb, ub), RangeBits(lo, hi), Pad(at);
    var x, y := ToBits(n - lb, k), ToBits(m - lo, w);
    if r <= pad + rest {
      Window(b, at, pad, x + y, rest, r);
      var p, seen := at + r, b[at + r..at + r + k + w];
      SlicesAre(seen, x, y);
      assert seen[..k] == b[p..p + k] && seen[k..] == b[p + k..p + k + w];
      AlignedIs(t, lb, ub, n, b, at);
      UnalignedIs(lo, hi, m, b, p + k);
      AlignedSizes(t, lb, ub);
      FitsOctets(n - lb, RangeBits(lb, ub), k);
      ZerosConcat(x, y);
      ZeroIs(n - lb, k);
      ZeroIs(m - lo, w);
    }
  }

  lemma UnalignedEnds(b: seq<bool>, pos: nat, lo: int, hi: int)
    requires lo <= hi
    ensures DecUnaligned(b, pos, lo, hi).Ok? ==> DecUnaligned(b, pos, lo, hi).pos == pos + RangeBits(lo, hi)
  {
    hide DecBits, CeilLog2;
  }

  lemma AtJoin(b: seq<bool>, pos: nat, x: seq<bool>, y: seq<bool>)
    requires At(b, pos, x) && At(b, pos + |x|, y)
    ensures At(b, pos, x + y)
  {
    assert b[pos..pos + |x + y|] == b[pos..pos + |x|] + b[pos + |x|..pos + |x + y|];
  }

  lemma FrameIsGood(x: Schema, a: Value, t: IntType, lb: int, ub: int, n: int, u: IntType, lo: int, hi: int, m: int)
    requires Good(x) && Matches(x, a)
    requires GoodAligned(t, lb, ub) && lb <= n <= ub && GoodRange(u, lo, hi) && lo <= m <= hi
    ensures var al, un := Aligned(t, lb, ub), Unaligned(u, lo, hi);
            && Good(al) && Matches(al, Num(n)) && Good(un) && Matches(un, Num(m))
            && Good(Both(al, un)) && Matches(Both(al, un), Pair(Num(n), Num(m)))
            && Good(Both(x, Both(al, un))) && Matches(Both(x, Both(al, un)), Pair(a, Pair(Num(n), Num(m))))
            && Good(Framed(x, t, lb, ub, u, lo, hi))
            && Matches(Framed(x, t, lb, ub, u, lo, hi), Pair(a, Pair(Num(n), Num(m))))
  {
    var al, un := Aligned(t, lb, ub), Unaligned(u, lo, hi);
    assert Good(al) && Matches(al, Num(n)) && Good(un) && Matches(un, Num(m));
    assert Good(Both(al, un)) && Matches(Both(al, un), Pair(Num(n), Num(m)));
  }

  /** The bits of the field: what is in front, the zeros of the writer's padding, and the two numbers. */
  lemma {:induction false} FrameBits(x: Schema, a: Value, t: IntType, lb: int, ub: int, n: int,
                                     u: IntType, lo: int, hi: int, m: int, pos: nat)
    returns (bits: seq<bool>)
    requires GoodFrame(x, a, t, lb, ub, n, u, lo, hi, m)
    ensures bits == ToBits(n - lb, OctetBits(lb, ub)) + ToBits(m - lo, RangeBits(lo, hi))
    ensures var s, v, e := Framed(x, t, lb, ub, u, lo, hi), Pair(a, Pair(Num(n), Num(m))), Encode(x, a, 0);
            && Encode(s, v, pos).bits == EncOpen(e.bits + (Zeros(Pad(|e.bits|)) + bits)).bits
            && |e.bits + (Zeros(Pad(|e.bits|)) + bits)| <= SIDE_BITS
            && Pad(|e.bits + (Zeros(Pad(|e.bits|)) + bits)|) == Pad(RangeBits(lo, hi))
  {
    hide Encode, Grounded, Sized, Kept, HasAligned, Reports, EncOpen, Zeros, ToBits, Pad, CeilLog2, Clip, Good, Matches;
    var al, un, e := Aligned(t, lb, ub), Unaligned(u, lo, hi), Encode(x, a, 0);
    var v, w := Pair(a, Pair(Num(n), Num(m))), Pair(Num(n), Num(m));
    var size := |e.bits|;
    FrameIsGood(x, a, t, lb, ub, n, u, lo, hi, m);
    OpenEncodes(Both(x, Both(al, un)), v, pos);
    BothEncodes(x, Both(al, un), v, 0);
    BothEncodes(al, un, w, size);
    NumberEncodes(t, lb, ub, n, size);
    StoredOffset(t, lb, ub, n, size);
    FrameNumber(t, lb, ub, n, Pad(size));
    UnalignedEncodes(u, lo, hi, m, size + |Encode(al, Num(n), size).bits|);
    hide EncAligned, EncUnaligned, RangeBits, U32, OctetBits;
    var o, y := ToBits(n - lb, OctetBits(lb, ub)), ToBits(m - lo, RangeBits(lo, hi));
    bits := o + y;
    SeqAssoc(Zeros(Pad(size)), o, y);
    FrameSize(size, lb, ub, lo, hi);
    ZerosSize(Pad(size));
    ClipNothing(e.bits + (Zeros(Pad(size)) + bits));
  }

  lemma ZerosSize(n: nat)
    ensures |Zeros(n)| == n
  {
  }

  lemma {:induction false} FrameNumber(t: IntType, lb: int, ub: int, n: int, pad: nat)
    requires GoodAligned(t, lb, ub) && InOctets(lb, ub) && lb <= n <= ub
    ensures RangeBits(lb, ub) <= OctetBits(lb, ub)
    ensures Zeros(pad) + Zeros(OctetBits(lb, ub) - RangeBits(lb, ub)) + ToBits(n - lb, RangeBits(lb, ub))
            == Zeros(pad) + ToBits(n - lb, OctetBits(lb, ub))
  {
    hide ToBits, Pow2, CeilLog2, t.Wrap, t.Modulus;
    var k, octets := RangeBits(lb, ub), OctetBits(lb, ub);
    AlignedSizes(t, lb, ub);
    FitsOctets(n - lb, k, octets);
    PaddedNumber(pad, octets - k, n - lb, k);
    PaddedNumber(pad, 0, n - lb, octets);
    assert Zeros(pad) + Zeros(0) == Zeros(pad);
  }

  lemma UnalignedEncodes(u: IntType, lo: int, hi: int, m: int, pos: nat)
    requires GoodRange(u, lo, hi) && lo <= m <= hi
    ensures Good(Unaligned(u, lo, hi)) && Matches(Unaligned(u, lo, hi), Num(m))
    ensures Encode(Unaligned(u, lo, hi), Num(m), pos) == Enc(ToBits(m - lo, RangeBits(lo, hi)), true)
  {
    hide ToBits, CeilLog2;
  }

  lemma FrameSize(size: nat, lb: int, ub: int, lo: int, hi: int)
    requires lb <= ub && lo <= hi
    ensures Pad(size + (Pad(size) + (OctetBits(lb, ub) + RangeBits(lo, hi)))) == Pad(RangeBits(lo, hi))
  {
    hide CeilLog2, Pad;
    PadBound(size);
    OctetsWhole(lb, ub);
    var w, q := RangeBits(lo, hi), size + Pad(size) + OctetBits(lb, ub);
    RestOfSum(q, w);
    SamePad(q + w, w);
  }

  lemma OctetsWhole(lb: int, ub: int)
    requires lb <= ub
    ensures OctetBits(lb, ub) % 8 == 0
  {
    hide CeilLog2;
  }

  /** Such a field reads back exactly when its front does, and it starts on a byte boundary, or both numbers are their
      lower bounds and the reader does not run past the field's own padding: where it stands elsewhere, writer and
      reader see the same bits only if they are all zeros. */
  lemma {:induction false} AlignedInFrame(x: Schema, a: Value, t: IntType, lb: int, ub: int, n: int,
                                          u: IntType, lo: int, hi: int, m: int, b: seq<bool>, pos: nat)
    requires GoodFrame(x, a, t, lb, ub, n, u, lo, hi, m)
    requires At(b, pos, Encode(Framed(x, t, lb, ub, u, lo, hi), Pair(a, Pair(Num(n), Num(m))), pos).bits)
    ensures var s, v := Framed(x, t, lb, ub, u, lo, hi), Pair(a, Pair(Num(n), Num(m)));
            var size, rest := |Encode(x, a, 0).bits|, Pad(RangeBits(lo, hi));
            Decode(s, b, pos) == Ok(v, pos + |Encode(s, v, pos).bits|)
            <==> Sized(x, a) && Kept(x, a)
                 && (pos % 8 == 0 || (n == lb && m == lo && Pad(pos + size) <= Pad(size) + rest))
  {
    hide Encode, Decode, Grounded, Sized, Kept, Good, Matches, HasAligned, Reports, EncOpen, DecLength, DecAligned,
      DecUnaligned, At, Zeros, ToBits, Pad, CeilLog2, Clip;
    var al, un, e := Aligned(t, lb, ub), Unaligned(u, lo, hi), Encode(x, a, 0);
    var size, rest, pad := |e.bits|, Pad(RangeBits(lo, hi)), Pad(|e.bits|);
    FrameIsGood(x, a, t, lb, ub, n, u, lo, hi, m);
    var bits := FrameBits(x, a, t, lb, ub, n, u, lo, hi, m, pos);
    var tail := Zeros(pad) + bits;
    var p := OpenParts(b, pos, e.bits + tail);
    var at := p + size;
    AtThen(b, p, e.bits, tail);
    AtJoin(b, at, tail, Zeros(rest));
    SamePlaces(x, p, 0);
    RoundTrip(x, a, 0, b, p);
    NumbersElsewhere(t, lb, ub, n, lo, hi, m, b, at, pad, rest);
    PadsAlike(pos, p, size);
    NumberDecodes(t, lb, ub, b, at);
    BothDecodes(al, un, b, at);
    BothDecodes(x, Both(al, un), b, p);
    OpenDecodes(Both(x, Both(al, un)), b, pos);
    var d := DecAligned(t, b, at, lb, ub);
    if d.Ok? {
      UnalignedDecodes(u, lo, hi, b, d.pos);
      UnalignedEnds(b, d.pos, lo, hi);
    }
    FrameEnd(at, pad, bits, rest, p, e.bits, |b|);
  }

  lemma FrameEnd(at: nat, pad: nat, bits: seq<bool>, rest: nat, p: nat, front: seq<bool>, cap: nat)
    requires at == p + |front| && rest == Pad(|front + (Zeros(pad) + bits)|)
    ensures p + 8 * ((|front + (Zeros(pad) + bits)| + 7) / 8) == at + pad + |bits| + rest
  {
    PadBound(|front + (Zeros(pad) + bits)|);
  }

  lemma UnalignedDecodes(u: IntType, lo: int, hi: int, b: seq<bool>, pos: nat)
    requires GoodRange(u, lo, hi)
    ensures Good(Unaligned(u, lo, hi))
    ensures var d := DecUnaligned(b, pos, lo, hi);
            Decode(Unaligned(u, lo, hi), b, pos) == if d.Ok? then Ok(Num(d.val), d.pos) else Fail
  {
    hide DecUnaligned;
  }

  // ----- a field that comes back almost anywhere -----

  const FRAME: Schema := Framed(Empty, Uint16, 0, 999, Uint8, 0, 7)
  const FRAME_OF_ZEROS: Value := Pair(Unit, Pair(Num(0), Num(0)))

  lemma {:induction false} FrameSizes()
    ensures RangeBits(0, 7) == 3 && OctetBits(0, 999) == 16
  {
    hide CeilLog2;
    assert Pow2(2) == 4 && Pow2(3) == 8;
    CeilLog2Is(8, 3);
    Pow2Plus8(1);
    assert Pow2(1) == 2 && Pow2(9) == 512;
    CeilLog2Is(1000, 10);
  }

  lemma {:induction false} FrameIsThere()
    ensures GoodFrame(Empty, Unit, Uint16, 0, 999, 0, Uint8, 0, 7, 0)
    ensures Encode(Empty, Unit, 0) == Enc([], true) && Sized(Empty, Unit) && Kept(Empty, Unit)
  {
    FrameSizes();
    hide CeilLog2, RangeBits, OctetBits;
    FrameIsGood(Empty, Unit, Uint16, 0, 999, 0, Uint8, 0, 7, 0);
  }

  /** Two numbers at their lower bounds come back from every bit offset but the first two behind a byte boundary. */
  lemma {:induction false} ZerosComeBack(b: seq<bool>, pos: nat)
    ensures Good(FRAME) && Matches(FRAME, FRAME_OF_ZEROS)
    ensures var bits := Encode(FRAME, FRAME_OF_ZEROS, pos).bits;
            At(b, pos, bits) ==>
              (Decode(FRAME, b, pos) == Ok(FRAME_OF_ZEROS, pos + |bits|) <==> pos % 8 != 1 && pos % 8 != 2)
  {
    FrameIsThere();
    FrameSizes();
    PadsThree(pos);
    hide Encode, Decode, Grounded, Sized, Kept, HasAligned, RangeBits, OctetBits, GoodAligned, GoodRange, InOctets, Pad,
      At;
    if At(b, pos, Encode(FRAME, FRAME_OF_ZEROS, pos).bits) {
      AlignedInFrame(Empty, Unit, Uint16, 0, 999, 0, Uint8, 0, 7, 0, b, pos);
    }
  }

  lemma PadsThree(pos: nat)
    ensures Pad(pos) <= Pad(0) + Pad(3) <==> pos % 8 != 1 && pos % 8 != 2
  {
  }
}
