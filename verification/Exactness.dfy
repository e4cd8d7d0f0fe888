/** What the encodings of the fields are, bit by bit, and that the decoders accept nothing else: whatever the bits are,
    a decoder returns a value exactly if the encoding of that value stands there. The forms that a decoder accepts but
    no encoder writes are listed in full. */
module Exactness {
  import opened Bits
  import opened BitCursor
  import opened Integers
  import opened Lengths
  import opened Strings
  import opened ExtGroups

  /** The bits are the n-bit binary form of v. */
  predicate Spells(bits: seq<bool>, n: nat, v: nat)
  {
    |bits| == n && ToNat(bits) == v
  }

  lemma {:induction false} ToBitsSpells(v: nat, n: nat)
    requires v < Pow2(n)
    ensures Spells(ToBits(v, n), n, v)
  {
    hide ToBits, ToNat, Pow2, Low;
    ToNatToBits(v, n);
    LowSmall(v, n);
  }

  /** A field is read as v exactly if v fits and its binary form stands there. */
  lemma {:induction false} BitsExact(b: seq<bool>, pos: nat, n: nat, v: nat, q: nat)
    ensures DecBits(b, pos, n) == Ok(v, q) <==> v < Pow2(n) && At(b, pos, ToBits(v, n)) && q == pos + n
  {
    hide ToBits, ToNat, Pow2, Low;
    if pos + n <= |b| {
      ToBitsToNat(b[pos..pos + n]);
      if v < Pow2(n) {
        ToNatToBits(v, n);
        LowSmall(v, n);
      }
    }
  }

  lemma AtJoined(b: seq<bool>, pos: nat, x: seq<bool>, y: seq<bool>)
    ensures At(b, pos, x + y) <==> At(b, pos, x) && At(b, pos + |x|, y)
  {
    if At(b, pos, x + y) {
      AtThen(b, pos, x, y);
    }
    if At(b, pos, x) && At(b, pos + |x|, y) {
      assert b[pos..pos + |x + y|] == b[pos..pos + |x|] + b[pos + |x|..pos + |x + y|];
    }
  }

  lemma {:induction false} OneBit(f: bool)
    ensures ToBits(if f then 1 else 0, 1) == [f] && Pow2(1) == 2
  {
    assert ToBits(if f then 1 else 0, 0) == [];
  }

  /** A single bit is there, or not, or the other one is. */
  lemma {:induction false} FlagExact(b: seq<bool>, pos: nat)
    ensures var d := DecBits(b, pos, 1);
            && (d.Fail? <==> pos >= |b|)
            && (d.Ok? ==> d == Ok(if b[pos] then 1 else 0, pos + 1))
    ensures forall f :: At(b, pos, [f]) <==> pos < |b| && b[pos] == f
  {
    if pos < |b| {
      OneFlag(b, pos);
      assert b[pos..pos + 1] == [b[pos]];
    }
  }

  /** What an encoder accepts and writes is found between two positions. */
  ghost predicate Stands(b: seq<bool>, pos: nat, e: Enc, q: nat) {
    e.ok && At(b, pos, e.bits) && q == pos + |e.bits|
  }

  // ----- normally small numbers -----

  /** Numbers up to 63 are a zero bit and six bits. Of others, a one is written before they are refused. */
  lemma {:induction false} SmallForm(n: nat)
    ensures EncSmall(n).ok <==> n <= 63
    ensures var bits := EncSmall(n).bits;
            if n <= 63 then |bits| == 7 && !bits[0] && Spells(bits[1..], 6, n) else bits == [true]
  {
    OneBit(false);
    OneBit(true);
    assert Pow2(6) == 64;
    hide ToBits, ToNat, Pow2;
    if n <= 63 {
      ToBitsSpells(n, 6);
      assert EncSmall(n).bits[1..] == ToBits(n, 6);
    }
  }

  lemma {:induction false} SmallExact(b: seq<bool>, pos: nat, n: nat, q: nat)
    ensures DecSmall(b, pos) == Ok(n, q) <==> Stands(b, pos, EncSmall(n), q)
  {
    OneBit(false);
    assert Pow2(6) == 64;
    hide ToBits, ToNat, Pow2, At;
    FlagExact(b, pos);
    BitsExact(b, pos + 1, 6, n, q);
    AtJoined(b, pos, [false], ToBits(n, 6));
  }

  // ----- length determinants -----

  /** Lengths below 128 are a zero bit and seven bits, and others up to 16382 the bits 10 and fourteen bits. Longer ones
      are refused, and nothing is written of them. */
  lemma {:induction false} LengthForm(n: nat)
    ensures EncLength(n).ok <==> n <= 16382
    ensures var bits := EncLength(n).bits;
            if n < 128 then |bits| == 8 && !bits[0] && Spells(bits[1..], 7, n)
            else if n <= 16382 then |bits| == 16 && bits[0] && !bits[1] && Spells(bits[2..], 14, n)
            else bits == []
  {
    OneBit(false);
    OneBit(true);
    FourteenBits();
    hide ToBits, ToNat, Pow2;
    if n < 128 {
      ToBitsSpells(n, 7);
      assert EncLength(n).bits[1..] == ToBits(n, 7);
    } else if n <= 16382 {
      ToBitsSpells(n, 14);
      assert EncLength(n).bits == [true] + ([false] + ToBits(n, 14));
      assert EncLength(n).bits[2..] == ToBits(n, 14);
    }
  }

  lemma {:induction false} FourteenBits()
    ensures Pow2(7) == 128 && Pow2(14) == 16384
  {
    Pow2Plus8(6);
    assert Pow2(6) == 64;
  }

  /** A length in the form that is meant for longer ones, or the one that the encoder refuses. */
  predicate LongForm(n: nat)
  {
    n < 128 || n == 16383
  }

  /** What is read as a length: besides what the encoder writes, the long form of short lengths and of 16383. */
  ghost predicate LengthStands(b: seq<bool>, pos: nat, n: nat, q: nat) {
    || Stands(b, pos, EncLength(n), q)
    || (LongForm(n) && At(b, pos, [true, false] + ToBits(n, 14)) && q == pos + 16)
  }

  lemma {:induction false} LengthExact(b: seq<bool>, pos: nat, n: nat, q: nat)
    ensures DecLength(b, pos) == Ok(n, q) <==> LengthStands(b, pos, n, q)
  {
    OneBit(false);
    OneBit(true);
    FourteenBits();
    hide ToBits, ToNat, Pow2, At, DecBits;
    LengthParts(b, pos);
    FlagExact(b, pos);
    FlagExact(b, pos + 1);
    BitsExact(b, pos + 1, 7, n, q);
    BitsExact(b, pos + 2, 14, n, q);
    AtJoined(b, pos, [false], ToBits(n, 7));
    AtJoined(b, pos, [true], [false] + ToBits(n, 14));
    AtJoined(b, pos + 1, [false], ToBits(n, 14));
    assert [true] + ([false] + ToBits(n, 14)) == [true, false] + ToBits(n, 14);
  }

  // ----- constrained whole numbers -----

  /** A number in range is its distance from the lower bound, in the least number of bits that tell the range apart. */
  lemma {:induction false} UnalignedForm(n: int, lb: int, ub: int)
    ensures EncUnaligned(n, lb, ub).ok <==> lb <= n <= ub
    ensures var bits := EncUnaligned(n, lb, ub).bits;
            if lb <= n <= ub
            then Spells(bits, |bits|, n - lb) && ub - lb < Pow2(|bits|) && (bits != [] ==> Pow2(|bits| - 1) <= ub - lb)
            else bits == []
  {
    hide ToBits, ToNat, Pow2;
    if lb <= n <= ub {
      ToBitsSpells(n - lb, RangeBits(lb, ub));
    }
  }

  lemma {:induction false} UnalignedExact(b: seq<bool>, pos: nat, lb: int, ub: int, n: int, q: nat)
    ensures DecUnaligned(b, pos, lb, ub) == Ok(n, q) <==> Stands(b, pos, EncUnaligned(n, lb, ub), q)
  {
    hide ToBits, ToNat, Pow2, At, DecBits;
    if lb <= n <= ub {
      BitsExact(b, pos, RangeBits(lb, ub), n - lb, q);
    }
  }

  /** The stored offset of an aligned number: a bit field for ranges of up to 255 values; for more, padding up to a byte
      boundary, and then one octet if there are 256, and two otherwise. */
  lemma {:induction false} AlignedForm(t: IntType, v: nat, lb: int, ub: int, pos: nat)
    requires GoodAligned(t, lb, ub) && v <= ub - lb
    ensures var bits := EncAligned(v, lb, ub, pos).bits;
            if ub - lb < 255 then bits == EncUnaligned(lb + v, lb, ub).bits
            else
              var octets := if ub - lb == 255 then 8 else 16;
              && |bits| == Pad(pos) + octets
              && bits[..Pad(pos)] == Zeros(Pad(pos)) && Spells(bits[Pad(pos)..], octets, v)
  {
    hide ToBits, ToNat, Pow2, CeilLog2, Pad, t.Modulus;
    NoBits(v);
    if ub - lb >= 255 {
      AlignedSizes(t, lb, ub);
      OctetsOf(lb, ub);
      var k, octets := RangeBits(lb, ub), OctetBits(lb, ub);
      LeadingZeros(v, octets - k, k);
      var bits := EncAligned(v, lb, ub, pos).bits;
      assert bits == Zeros(Pad(pos)) + (Zeros(octets - k) + ToBits(v, k));
      assert bits[Pad(pos)..] == Zeros(octets - k) + ToBits(v, k);
    }
  }

  lemma {:induction false} OctetsOf(lb: int, ub: int)
    requires 255 <= ub - lb <= 65534
    ensures OctetBits(lb, ub) == if ub - lb == 255 then 8 else 16
  {
    hide Pow2;
    Pow2Half();
    assert Pow2(8) == 256 by { Pow2Zero(); Pow2Plus8(0); }
    var k := RangeBits(lb, ub);
    CeilLog2Bound(ub - lb + 1, 16);
    AtLeastByte(k);
    if ub - lb == 255 {
      CeilLog2Bound(256, 8);
    } else {
      AboveByte(k);
    }
  }

  lemma {:induction false} AboveByte(k: nat)
    requires Pow2(k) > 256
    ensures k > 8
  {
    assert Pow2(9) == 512;
    if k <= 8 {
      Pow2Mono(k, 9);
    }
  }

  lemma {:induction false} LeadingZeros(v: nat, z: nat, k: nat)
    requires v < Pow2(k)
    ensures Spells(Zeros(z) + ToBits(v, k), z + k, v)
  {
    hide ToBits, ToNat, Pow2, Low;
    ToBitsSpells(v, k);
    ToNatConcat(Zeros(z), ToBits(v, k));
    ToBitsZero(z);
    ToNatToBits(0, z);
    LowOfZero(z);
    ShlOne(k);
  }

  /** What is read as an aligned number: the reader checks nothing but that the bits are there, and returns the lower
      bound plus what they spell, wrapped to the type. */
  ghost predicate AlignedStands(t: IntType, b: seq<bool>, pos: nat, lb: int, ub: int, n: int, q: nat)
    requires lb <= ub
  {
    var size := if ub - lb < 255 then RangeBits(lb, ub) else if ub - lb == 255 then 8 else 16;
    var start := if ub - lb < 255 then pos else pos + Pad(pos);
    if lb == ub then n == lb && q == pos
    else
      && q == start + size <= |b|
      && n == var sum := lb + ToNat(b[start..q]); if sum <= t.Max() then sum else sum - t.Modulus()
  }

  lemma {:induction false} AlignedExact(t: IntType, b: seq<bool>, pos: nat, lb: int, ub: int, n: int, q: nat)
    requires GoodAligned(t, lb, ub)
    ensures DecAligned(t, b, pos, lb, ub) == Ok(n, q) <==> AlignedStands(t, b, pos, lb, ub, n, q)
  {
    hide DecAligned, AlignedStands;
    if lb == ub {
      OneValueExact(t, b, pos, lb, n, q);
    } else if ub - lb < 255 {
      BitFieldExact(t, b, pos, lb, ub, n, q);
    } else {
      WholeOctetsExact(t, b, pos, lb, ub, n, q);
    }
  }

  lemma OneValueExact(t: IntType, b: seq<bool>, pos: nat, lb: int, n: int, q: nat)
    ensures DecAligned(t, b, pos, lb, lb) == Ok(n, q) <==> AlignedStands(t, b, pos, lb, lb, n, q)
  {
    hide CeilLog2;
  }

  lemma {:induction false} BitFieldExact(t: IntType, b: seq<bool>, pos: nat, lb: int, ub: int, n: int, q: nat)
    requires GoodAligned(t, lb, ub) && 0 < ub - lb < 255
    ensures DecAligned(t, b, pos, lb, ub) == Ok(n, q) <==> AlignedStands(t, b, pos, lb, ub, n, q)
  {
    hide ToNat, Pow2, CeilLog2, Pad, t.Modulus, t.Wrap, OctetBits;
    AlignedSizes(t, lb, ub);
    var size := RangeBits(lb, ub);
    if pos + size <= |b| {
      WrapOffset(t, ToNat(b[pos..pos + size]), lb);
    }
  }

  lemma {:induction false} WholeOctetsExact(t: IntType, b: seq<bool>, pos: nat, lb: int, ub: int, n: int, q: nat)
    requires GoodAligned(t, lb, ub) && 255 <= ub - lb
    ensures DecAligned(t, b, pos, lb, ub) == Ok(n, q) <==> AlignedStands(t, b, pos, lb, ub, n, q)
  {
    hide ToNat, Pow2, CeilLog2, Pad, t.Modulus, t.Wrap, OctetBits, RangeBits;
    OctetsOf(lb, ub);
    OctetsBelow(t, lb, ub);
    var start, size := pos + Pad(pos), OctetBits(lb, ub);
    if start + size <= |b| {
      WrapOffset(t, ToNat(b[start..start + size]), lb);
    }
  }

  lemma {:induction false} OctetsBelow(t: IntType, lb: int, ub: int)
    requires GoodAligned(t, lb, ub) && ub - lb >= 255
    ensures Pow2(OctetBits(lb, ub)) <= t.Modulus()
  {
    hide Pow2;
    OctetsOf(lb, ub);
    Pow2Half();
    assert Pow2(8) == 256 by { Pow2Zero(); Pow2Plus8(0); }
  }

  // ----- enumerations -----

  /** Without an extension marker, an index is a number of the range. With one, a zero bit and the index in the root's
      range, or a one bit and the number of places into the extensions as a normally small number. */
  lemma {:induction false} EnumForm(e: nat, nofTypes: nat, nofExts: nat, hasExt: bool)
    requires GoodEnum(nofTypes, nofExts, hasExt) && e < nofTypes
    ensures var enc, root := EncEnum(e, nofTypes, nofExts, hasExt), nofTypes - nofExts;
            enc == if !hasExt then EncUnaligned(e, 0, nofTypes - 1)
                   else if e < root then Then(Enc([false], true), EncUnaligned(e, 0, root - 1))
                   else Then(Enc([true], true), EncSmall(e - root))
  {
    OneBit(false);
    OneBit(true);
    hide ToBits, CeilLog2, EncSmall;
  }

  /** The indices that the root's field can spell beyond the root: no encoder writes them like that. */
  predicate BeyondRoot(e: nat, nofTypes: nat, nofExts: nat)
    requires nofExts < nofTypes
  {
    nofTypes - nofExts <= e < nofTypes && e < Pow2(CeilLog2(nofTypes - nofExts))
  }

  /** What is read as an index: a value of the enumeration whose encoding stands there, or with an extension marker, one
      beyond the root in the root's field. */
  ghost predicate EnumStands(b: seq<bool>, pos: nat, nofTypes: nat, nofExts: nat, hasExt: bool, e: nat, q: nat)
    requires GoodEnum(nofTypes, nofExts, hasExt)
  {
    || (e < nofTypes && Stands(b, pos, EncEnum(e, nofTypes, nofExts, hasExt), q))
    || (hasExt && BeyondRoot(e, nofTypes, nofExts) &&
        var k := CeilLog2(nofTypes - nofExts);
        At(b, pos, [false] + ToBits(e, k)) && q == pos + 1 + k)
  }

  lemma {:induction false} EnumExact(b: seq<bool>, pos: nat, nofTypes: nat, nofExts: nat, hasExt: bool, e: nat, q: nat)
    requires GoodEnum(nofTypes, nofExts, hasExt)
    ensures DecEnum(b, pos, nofTypes, nofExts, hasExt) == Ok(e, q)
            <==> EnumStands(b, pos, nofTypes, nofExts, hasExt, e, q)
  {
    hide ToBits, ToNat, Pow2, CeilLog2, At, DecBits, EncSmall, DecSmall;
    if !hasExt {
      if e < nofTypes {
        Pow2Covers(e, nofTypes);
      }
      BitsExact(b, pos, CeilLog2(nofTypes), e, q);
    } else {
      ExtEnumExact(b, pos, nofTypes, nofExts, e, q);
    }
  }

  lemma {:induction false} ExtEnumExact(b: seq<bool>, pos: nat, nofTypes: nat, nofExts: nat, e: nat, q: nat)
    requires GoodEnum(nofTypes, nofExts, true)
    ensures DecEnum(b, pos, nofTypes, nofExts, true) == Ok(e, q) <==> EnumStands(b, pos, nofTypes, nofExts, true, e, q)
  {
    OneBit(false);
    OneBit(true);
    hide ToBits, ToNat, Pow2, CeilLog2, At, DecBits, EncSmall, DecSmall;
    var root := nofTypes - nofExts;
    var k := CeilLog2(root);
    FlagExact(b, pos);
    BitsExact(b, pos + 1, k, e, q);
    AtJoined(b, pos, [false], ToBits(e, k));
    if e < root {
      Pow2Covers(e, root);
    } else {
      SmallExact(b, pos + 1, e - root, q);
      AtJoined(b, pos, [true], EncSmall(e - root).bits);
    }
  }

  // ----- octet strings -----

  lemma {:induction false} TakenAt(b: seq<bool>, pos: nat, n: nat)
    requires TakeOctets(b, pos, n).Ok? && pos <= |b|
    ensures At(b, pos, BitsOf(TakeOctets(b, pos, n).val))
  {
    hide ToBits, ToNat, At, DecBits, Pow2;
    if n == 0 {
      NothingAt(b, pos);
    } else {
      var o, v := TakeOctets(b, pos, n - 1).val, DecBits(b, pos + 8 * (n - 1), 8).val;
      TakenAt(b, pos, n - 1);
      ByteExact(b, pos + 8 * (n - 1));
      AtJoined(b, pos, BitsOf(o), ToBits(v, 8));
      assert (o + [v])[..n - 1] == o;
    }
  }

  lemma NothingAt(b: seq<bool>, pos: nat)
    requires pos <= |b|
    ensures At(b, pos, [])
  {
  }

  lemma {:induction false} ByteExact(b: seq<bool>, pos: nat)
    ensures var d := DecBits(b, pos, 8); d.Ok? ==> d.val < 256 && At(b, pos, ToBits(d.val, 8))
  {
    assert Pow2(8) == 256;
    if DecBits(b, pos, 8).Ok? {
      BitsExact(b, pos, 8, DecBits(b, pos, 8).val, pos + 8);
    }
  }

  /** What is read as an octet string: its length, and its octets right behind. */
  ghost predicate OctetsStand(b: seq<bool>, pos: nat, o: seq<byte>, q: nat) {
    var n := 8 * |o|;
    n <= q && LengthStands(b, pos, |o|, q - n) && At(b, q - n, BitsOf(o))
  }

  lemma {:induction false} OctetsExact(b: seq<bool>, pos: nat, o: seq<byte>, q: nat)
    ensures DecOctets(b, pos) == Ok(o, q) <==> OctetsStand(b, pos, o, q)
  {
    hide BitsOf, TakeOctets, DecLength, LengthStands, At;
    var d, n := DecLength(b, pos), 8 * |o|;
    if n <= q {
      LengthExact(b, pos, |o|, q - n);
    }
    if d.Ok? {
      LengthWithin(b, pos);
      if d.val == |o| && At(b, d.pos, BitsOf(o)) {
        TakeOctetsAt(b, d.pos, o);
      }
      if TakeOctets(b, d.pos, d.val).Ok? {
        TakenAt(b, d.pos, d.val);
      }
    }
  }

  lemma LengthWithin(b: seq<bool>, pos: nat)
    ensures DecLength(b, pos).Ok? ==> DecLength(b, pos).pos <= |b|
  {
    hide ToNat;
  }

  // ----- bit strings -----

  /** The low bits of a number are the same in a field of any width. */
  lemma {:induction false} LowBitsAlike(v: nat, m: nat, n: nat, i: nat)
    requires i < m && i < n
    ensures ToBits(v, m)[m - 1 - i] == ToBits(v, n)[n - 1 - i]
  {
    if i > 0 {
      LowBitsAlike(v / 2, m - 1, n - 1, i - 1);
    }
  }

  lemma {:induction false} DownAt(buf: seq<byte>, k: nat, j: nat)
    requires k <= |buf| && j < 8 * k
    ensures OctetsDown(buf, k)[8 * k - 1 - j] == ToBits(buf[j / 8], 8)[7 - j % 8]
  {
    hide ToBits;
    if j < 8 * (k - 1) {
      DownAt(buf, k - 1, j);
    }
  }

  /** A bit string is sent from its last bit down to its first. Its bits are counted from the low end of its first octet
      on. */
  lemma {:induction false} BitstringForm(buf: seq<byte>, n: nat, j: nat)
    requires |buf| == NofOctets(n) && j < n
    ensures var bits := EncBitstring(buf, n).bits;
            |bits| == n && bits[n - 1 - j] == ToBits(buf[j / 8], 8)[7 - j % 8]
  {
    hide ToBits, OctetsDown;
    var k := NofOctets(n) - 1;
    if j < 8 * k {
      DownAt(buf, k, j);
    } else {
      LowBitsAlike(buf[k], TopBitCount(n), 8, j - 8 * k);
    }
  }

  lemma {:induction false} DownTaken(b: seq<bool>, pos: nat, k: nat)
    requires TakeDown(b, pos, k).Ok? && pos <= |b|
    ensures At(b, pos, OctetsDown(TakeDown(b, pos, k).val, k))
    decreases k
  {
    hide ToBits, ToNat, At, DecBits, Pow2;
    if k == 0 {
      NothingAt(b, pos);
    } else {
      var v, o := DecBits(b, pos, 8).val, TakeDown(b, pos + 8, k - 1).val;
      ByteExact(b, pos);
      Within(b, pos, 8);
      DownTaken(b, pos + 8, k - 1);
      DownPrefix(o, [v], k - 1);
      AtJoined(b, pos, ToBits(v, 8), OctetsDown(o, k - 1));
    }
  }

  lemma Within(b: seq<bool>, pos: nat, n: nat)
    ensures DecBits(b, pos, n).Ok? ==> pos + n <= |b|
  {
  }

  lemma {:induction false} DownPrefix(x: seq<byte>, y: seq<byte>, k: nat)
    requires k <= |x|
    ensures OctetsDown(x + y, k) == OctetsDown(x, k)
  {
    hide ToBits;
    if k > 0 {
      DownPrefix(x, y, k - 1);
    }
  }

  /** What is read as a bit string: one without stray bits whose encoding stands there. */
  ghost predicate BitstringStands(b: seq<bool>, pos: nat, n: nat, o: seq<byte>, q: nat) {
    CleanBitstring(o, n) && Stands(b, pos, EncBitstring(o, n), q)
  }

  lemma {:induction false} BitstringExact(b: seq<bool>, pos: nat, n: nat, o: seq<byte>, q: nat)
    ensures DecBitstring(b, pos, n) == Ok(o, q) <==> BitstringStands(b, pos, n, o, q)
  {
    hide ToBits, ToNat, At, DecBits, Pow2, TakeDown, OctetsDown, DecBitstring, CleanBitstring;
    if n > 0 && CleanBitstring(o, n) {
      CleanSize(o, n);
      if At(b, pos, EncBitstring(o, n).bits) {
        BitstringRoundTrip(b, pos, o, n);
      }
    }
    if DecBitstring(b, pos, n).Ok? {
      BitstringTaken(b, pos, n);
    }
  }

  lemma CleanSize(o: seq<byte>, n: nat)
    requires CleanBitstring(o, n)
    ensures |o| == NofOctets(n)
  {
  }

  lemma {:induction false} BitstringTaken(b: seq<bool>, pos: nat, n: nat)
    requires DecBitstring(b, pos, n).Ok?
    ensures var d := DecBitstring(b, pos, n);
            n > 0 && CleanBitstring(d.val, n) && At(b, pos, EncBitstring(d.val, n).bits) && d.pos == pos + n
  {
    hide ToBits, ToNat, At, DecBits, Pow2, TakeDown, OctetsDown;
    var top, k := TopBitCount(n), NofOctets(n) - 1;
    var v, o := DecBits(b, pos, top).val, TakeDown(b, pos + top, k).val;
    BitsExact(b, pos, top, v, pos + top);
    Pow2Byte(top);
    Within(b, pos, top);
    DownTaken(b, pos + top, k);
    DownPrefix(o, [v], k);
    AtJoined(b, pos, ToBits(v, top), OctetsDown(o, k));
    var d := DecBitstring(b, pos, n);
    assert d.val == o + [v];
  }

  // ----- extension-group headers -----

  /** The count of groups, with those outside the header, less one, and the flags up to the last one that is set. */
  lemma {:induction false} ExtForm(g: seq<bool>, k: nat, nofNogroups: u32)
    requires k <= |g| && (k > 0 ==> g[k - 1]) && (forall i :: k <= i < |g| ==> !g[i])
    requires 1 <= k + nofNogroups <= 64
    ensures var e := EncExt(g, nofNogroups);
            && e.ok && |e.bits| == 7 + k && !e.bits[0]
            && Spells(e.bits[1..7], 6, k + nofNogroups - 1) && e.bits[7..] == g[..k]
  {
    hide EncSmall, LastSet, Spells;
    NoneAfterLast(g);
    assert LastSet(g) == k;
    var n := k + nofNogroups - 1;
    assert U32(n) == n;
    SmallForm(n);
    var x := EncSmall(n).bits;
    assert EncExt(g, nofNogroups).bits[1..7] == x[1..];
  }

  /** What is read as flags: their count and they themselves. The last ones may be absent, other than in what the
      encoder writes. */
  ghost predicate FlagsStand(b: seq<bool>, pos: nat, size: nat, nofNogroups: u32, g: seq<bool>, q: nat) {
    var n := U32(|g| + nofNogroups - 1);
    |g| <= size && Stands(b, pos, Then(EncSmall(n), Enc(g, true)), q)
  }

  lemma {:induction false} ExtExact(b: seq<bool>, pos: nat, size: nat, nofNogroups: u32, g: seq<bool>, q: nat)
    requires size <= 20
    ensures DecExt(b, pos, size, nofNogroups) == Ok(g, q) <==> FlagsStand(b, pos, size, nofNogroups, g, q)
  {
    hide EncSmall, DecSmall, At;
    var n, d := U32(|g| + nofNogroups - 1), DecSmall(b, pos);
    SmallForm(n);
    SmallExact(b, pos, n, pos + 7);
    AtJoined(b, pos, EncSmall(n).bits, g);
    if d.Ok? && |g| <= size {
      SmallBound(b, pos);
      SmallExact(b, pos, d.val, d.pos);
      SmallForm(d.val);
      CountsBack(|g|, d.val, nofNogroups);
      FlagsAt(b, d.pos, g);
    }
  }

  /** The unsigned arithmetic on the count is undone by the reader. */
  lemma CountsBack(k: nat, v: nat, nofNogroups: u32)
    requires k <= 20 && v <= 63
    ensures U32(v + 1 - nofNogroups) == k <==> v == U32(k + nofNogroups - 1)
  {
  }

  lemma FlagsAt(b: seq<bool>, p: nat, g: seq<bool>)
    ensures At(b, p, g) <==> p + |g| <= |b| && b[p..p + |g|] == g
  {
  }
}
