/** Constrained whole numbers of the packed encoding rules, unaligned and aligned. */
module Integers {
  import opened Bits
  import opened BitCursor

  // ----- the integer types the library is instantiated at -----

  datatype IntType = Uint8 | Uint16 | Uint32 | Uint64 | Int8 | Int16 | Int32 | Int64
  {
    function Modulus(): (m: int)
      ensures m >= 256
    {
      match this
      case Uint8 | Int8 => 0x100
      case Uint16 | Int16 => 0x1_0000
      case Uint32 | Int32 => 0x1_0000_0000
      case Uint64 | Int64 => 0x1_0000_0000_0000_0000
    }

    function Min(): int
    {
      if Int8? || Int16? || Int32? || Int64? then -Modulus() / 2 else 0
    }

    function Max(): int
    {
      Min() + Modulus() - 1
    }

    predicate Contains(x: int)
    {
      Min() <= x <= Max()
    }

    /** Conversion of any whole number to this type. */
    function Wrap(x: int): (r: int)
      ensures Contains(r)
    {
      (x - Min()) % Modulus() + Min()
    }
  }

  /** The numbers that each type holds. */
  lemma TypeRanges(x: int)
    ensures (Uint8.Contains(x) <==> 0 <= x <= 255) && (Int8.Contains(x) <==> -128 <= x <= 127)
    ensures (Uint16.Contains(x) <==> 0 <= x <= 65535) && (Int16.Contains(x) <==> -32768 <= x <= 32767)
    ensures Uint32.Contains(x) <==> 0 <= x <= 4294967295
    ensures Int32.Contains(x) <==> -2147483648 <= x <= 2147483647
    ensures Uint64.Contains(x) <==> 0 <= x <= 18446744073709551615
    ensures Int64.Contains(x) <==> -9223372036854775808 <= x <= 9223372036854775807
  {
  }

  /** The number of bits that tell x values apart: the exact value of the source's floating-point
      expression for x up to 65536. */
  function CeilLog2(x: nat): (n: nat)
    requires x >= 1
    ensures x <= Pow2(n) && (n > 0 ==> Pow2(n - 1) < x)
  {
    if x == 1 then 0 else 1 + CeilLog2((x + 1) / 2)
  }

  lemma {:induction false} CeilLog2Bound(x: nat, k: nat)
    requires 1 <= x <= Pow2(k)
    ensures CeilLog2(x) <= k
  {
    if CeilLog2(x) > k {
      Pow2Mono(k, CeilLog2(x) - 1);
    }
  }

  lemma {:induction false} CeilLog2Is(x: nat, k: nat)
    requires 1 <= k && Pow2(k - 1) < x <= Pow2(k)
    ensures CeilLog2(x) == k
  {
    CeilLog2Bound(x, k);
    if CeilLog2(x) < k {
      Pow2Mono(CeilLog2(x), k - 1);
    }
  }

  /** A range that the library's callers may declare. */
  predicate GoodRange(t: IntType, lb: int, ub: int)
  {
    t.Contains(lb) && t.Contains(ub) && ub - lb + 1 <= 65536
  }

  function RangeBits(lb: int, ub: int): nat
    requires lb <= ub
  {
    CeilLog2(ub - lb + 1)
  }

  lemma {:induction false} RangeBitsBound(t: IntType, lb: int, ub: int)
    requires GoodRange(t, lb, ub) && lb <= ub
    ensures RangeBits(lb, ub) <= 16 && Pow2(RangeBits(lb, ub)) <= t.Modulus()
    ensures ub - lb < Pow2(RangeBits(lb, ub)) <= 65536
  {
    hide Pow2, CeilLog2;
    Pow2Zero();
    Pow2Plus8(0);
    Pow2Plus8(8);
    CeilLog2Bound(ub - lb + 1, 16);
    Pow2Mono(RangeBits(lb, ub), 16);
    if t.Modulus() == 256 {
      CeilLog2Bound(ub - lb + 1, 8);
      Pow2Mono(RangeBits(lb, ub), 8);
    }
  }

  // ----- constrained whole numbers, unaligned -----

  function EncUnaligned(n: int, lb: int, ub: int): Enc
  {
    if ub < lb || n < lb || n > ub then Enc([], false)
    else Enc(ToBits(n - lb, RangeBits(lb, ub)), true)
  }

  function DecUnaligned(b: seq<bool>, pos: nat, lb: int, ub: int): Dec<int>
  {
    if ub < lb then Fail
    else
      var (v, p) :- DecBits(b, pos, RangeBits(lb, ub));
      if v <= ub - lb then Ok(lb + v, p) else Fail
  }

  /** An offset stored in any of the integer types and passed on as 32 bits keeps its low bits. */
  lemma {:induction false} OffsetBits(t: IntType, x: int, k: nat)
    requires 0 <= x < t.Modulus() && x <= 65535 && k <= 16 && Pow2(k) <= t.Modulus()
    ensures Low(U32(t.Wrap(x)), k) == Low(x, k)
  {
    hide Low, Pow2, Shl, t.Wrap;
    WrapNear(t, x);
    Multiples();
    if t.Modulus() == 256 {
      ByteWidth(k);
      LowAddMultiple(x, 0xff_ffff, 8, k);
    } else {
      LowAddMultiple(x, 0xffff, 16, k);
    }
  }

  lemma {:induction false} ByteWidth(k: nat)
    requires Pow2(k) <= 256
    ensures k <= 8
  {
    assert Pow2(9) == 512;
    if k > 8 {
      Pow2Mono(9, k);
    }
  }

  lemma {:induction false} Multiples()
    ensures Shl(0xff_ffff, 8) == TWO_32 - 0x100 && Shl(0xffff, 16) == TWO_32 - 0x1_0000
  {
    ShlIsProduct(0xff_ffff, 8);
    ShlIsProduct(0xffff, 16);
    hide Pow2, Shl;
    Pow2Zero();
    Pow2Plus8(0);
    Pow2Plus8(8);
  }

  lemma {:induction false} LowAddMultiple(x: nat, c: nat, w: nat, k: nat)
    requires k <= w
    ensures Low(x + Shl(c, w), k) == Low(x, k)
  {
    if k > 0 {
      LowAddMultiple(x / 2, c, w - 1, k - 1);
      assert (x + Shl(c, w)) / 2 == x / 2 + Shl(c, w - 1);
    }
  }

  /** Encoder of a constrained whole number. It reports success whenever the number is in range,
      even when the buffer had no room for it: the outcome of the packing call is dropped. */
  method PackUnaligned(bref: BitRef, t: IntType, n: int, lb: int, ub: int) returns (code: Code)
    requires bref.Valid() && GoodRange(t, lb, ub) && t.Contains(n)
    modifies bref`ptr, bref`offset, bref.buffer
    ensures bref.Valid()
    ensures Appends(old(bref.State()), bref.State(), EncUnaligned(n, lb, ub))
    ensures code == if EncUnaligned(n, lb, ub).ok then Success else EncodeFail
    ensures code != DecodeFail
  {
    hide Appends, Emits, ToBits, Low, Pow2, CeilLog2, U32;
    ghost var s := bref.State();
    EmitsNothing(s);
    EmitsAppends(s, s, Enc([], true), Success);
    if ub < lb || n < lb || n > ub {
      return EncodeFail;
    }
    RangeBitsBound(t, lb, ub);
    NoBits(n - lb);
    var ra := ub - lb + 1;
    if ra != 1 {
      var nBits := CeilLog2(ra);
      var toencode := t.Wrap(n - lb);
      OffsetBits(t, n - lb, nBits);
      SameLowBits(U32(toencode), n - lb, nBits);
      var ignored := bref.Pack(U32(toencode), nBits);
      EmitsAppends(s, bref.State(), Enc(ToBits(n - lb, nBits), true), ignored);
    }
    return Success;
  }

  lemma EmitsAppends(s: Snap, t: Snap, e: Enc, code: Code)
    requires Emits(s, t, e, code)
    ensures Appends(s, t, e) && Appends(s, t, Enc(e.bits, false))
  {
  }

  lemma NoBits(v: nat)
    ensures CeilLog2(1) == 0 && ToBits(v, 0) == []
  {
  }

  lemma DecNothing(b: seq<bool>, pos: nat)
    requires pos <= |b|
    ensures DecBits(b, pos, 0) == Ok(0, pos)
  {
    assert b[pos..pos] == [];
  }

  lemma {:induction false} SameLowBits(v: nat, w: nat, n: nat)
    requires Low(v, n) == Low(w, n)
    ensures ToBits(v, n) == ToBits(w, n)
  {
    hide ToBits, Low;
    ToBitsLow(v, n);
    ToBitsLow(w, n);
  }

  /** Decoder of a constrained whole number. */
  method UnpackUnaligned(bref: BitRef, t: IntType, lb: int, ub: int) returns (n: int, code: Code)
    requires bref.Valid() && GoodRange(t, lb, ub)
    modifies bref`ptr, bref`offset
    ensures bref.Valid() && old(bref.State()).pos <= bref.State().pos
    ensures var d := DecUnaligned(bref.State().Bits(), old(bref.State()).pos, lb, ub);
            if d.Ok? then code == Success && d == Ok(n, bref.State().pos) else code == DecodeFail
  {
    hide BitsOf, ToNat, Pow2, CeilLog2;
    n := 0;
    if ub < lb {
      return n, DecodeFail;
    }
    RangeBitsBound(t, lb, ub);
    NoBits(0);
    var ra := ub - lb + 1;
    if ra == 1 {
      DecNothing(bref.State().Bits(), bref.State().pos);
      return lb, Success;
    }
    var nBits := CeilLog2(ra);
    var val, ret := bref.Unpack(nBits);
    n := t.Wrap(t.Wrap(val) + lb);
    if ret == Success {
      WrapOffset(t, val, lb);
    }
    if n < lb || n > ub {
      return n, DecodeFail;
    }
    return n, ret;
  }

  /** Conversion to an integer type, of a number at most one period away from its range. */
  lemma WrapNear(t: IntType, x: int)
    requires t.Min() - t.Modulus() <= x <= t.Max() + t.Modulus()
    ensures t.Wrap(x) == if x < t.Min() then x + t.Modulus() else if x <= t.Max() then x else x - t.Modulus()
  {
    hide t.Modulus, t.Min;
    var y, m := x - t.Min(), t.Modulus();
    if y < 0 {
      ModIs(y, m, -1);
    } else if y < m {
      ModIs(y, m, 0);
    } else if y < 2 * m {
      ModIs(y, m, 1);
    }
  }

  lemma ModIs(y: int, m: int, q: int)
    requires -1 <= q <= 1 && 0 <= y - q * m < m
    ensures y % m == y - q * m
  {
    var r := y - q * m;
    assert y == (y / m) * m + y % m;
    if y / m > q {
      MulMono(1, y / m - q, m);
    } else if y / m < q {
      MulMono(1, q - y / m, m);
    }
  }

  /** Adding the lower bound after the conversion: the result is the sum, or falls below the lower bound. */
  lemma WrapOffset(t: IntType, v: int, lb: int)
    requires 0 <= v < t.Modulus() && t.Contains(lb)
    ensures t.Wrap(t.Wrap(v) + lb) == if v + lb <= t.Max() then v + lb else v + lb - t.Modulus()
  {
    WrapNear(t, v);
    WrapNear(t, t.Wrap(v) + lb);
  }

  /** Every in-range number reads back, and the cursor ends where the encoder left it. */
  lemma {:induction false} UnalignedRoundTrip(b: seq<bool>, pos: nat, n: int, lb: int, ub: int)
    requires lb <= n <= ub && At(b, pos, EncUnaligned(n, lb, ub).bits)
    ensures DecUnaligned(b, pos, lb, ub) == Ok(n, pos + |EncUnaligned(n, lb, ub).bits|)
  {
    hide ToBits, ToNat, Low, Pow2;
    DecAt(b, pos, n - lb, RangeBits(lb, ub));
  }

  // ----- constrained whole numbers, aligned -----

  /** The range sizes for which both sides of the aligned codec use the same layout. */
  predicate GoodAligned(t: IntType, lb: int, ub: int)
  {
    t.Contains(lb) && t.Contains(ub) && 1 <= ub - lb + 1 <= 65535 && ub - lb + 1 <= t.Max()
  }

  /** Ranges of 256 values and more are stored in whole octets on a byte boundary. */
  predicate InOctets(lb: int, ub: int)
  {
    ub - lb + 1 >= 256
  }

  function OctetBits(lb: int, ub: int): nat
    requires lb <= ub
  {
    (RangeBits(lb, ub) + 7) / 8 * 8
  }

  /** The encoding at a given bit position. The encoder does not check that n is in range;
      whatever the offset is, its low bits are stored. */
  function EncAligned(offset: nat, lb: int, ub: int, pos: nat): Enc
    requires lb <= ub
  {
    if lb == ub then Enc([], true)
    else if !InOctets(lb, ub) then Enc(ToBits(offset, RangeBits(lb, ub)), true)
    else Enc(Zeros(Pad(pos)) + Zeros(OctetBits(lb, ub) - RangeBits(lb, ub)) + ToBits(offset, RangeBits(lb, ub)), true)
  }

  function DecAligned(t: IntType, b: seq<bool>, pos: nat, lb: int, ub: int): Dec<int>
    requires lb <= ub
  {
    if lb == ub then Ok(lb, pos)
    else if !InOctets(lb, ub) then
      var (v, p) :- DecBits(b, pos, RangeBits(lb, ub));
      Ok(t.Wrap(t.Wrap(v) + lb), p)
    else if pos + Pad(pos) > |b| then Fail
    else
      var (v, p) :- DecBits(b, pos + Pad(pos), OctetBits(lb, ub));
      Ok(t.Wrap(t.Wrap(v) + lb), p)
  }

  lemma {:induction false} AlignedSizes(t: IntType, lb: int, ub: int)
    requires GoodAligned(t, lb, ub)
    ensures RangeBits(lb, ub) <= OctetBits(lb, ub) <= 16
    ensures InOctets(lb, ub) ==> 8 <= RangeBits(lb, ub)
    ensures ub - lb < Pow2(RangeBits(lb, ub)) <= t.Modulus() && RangeBits(lb, ub) <= 16
  {
    hide Pow2, CeilLog2;
    RangeBitsBound(t, lb, ub);
    if InOctets(lb, ub) {
      assert 256 <= Pow2(RangeBits(lb, ub));
      AtLeastByte(RangeBits(lb, ub));
    }
  }

  lemma {:induction false} AtLeastByte(k: nat)
    requires Pow2(k) >= 256
    ensures k >= 8
  {
    assert Pow2(7) == 128;
    if k < 8 {
      Pow2Mono(k, 7);
    }
  }

  method PackAligned(bref: BitRef, t: IntType, n: int, lb: int, ub: int) returns (code: Code)
    requires bref.Valid() && GoodAligned(t, lb, ub) && t.Contains(n)
    modifies bref`ptr, bref`offset, bref.buffer
    ensures bref.Valid()
    ensures Emits(old(bref.State()), bref.State(),
                  EncAligned(U32(t.Wrap(n - lb)), lb, ub, old(bref.State()).pos), code)
    ensures code != DecodeFail
  {
    hide Emits, Appends, ToBits, CeilLog2, Pow2, U32, Zeros, t.Wrap, Pad;
    ghost var s := bref.State();
    EmitsNothing(s);
    AlignedSizes(t, lb, ub);
    NoBits(0);
    var ra := ub - lb + 1;
    if ra == 1 {
      return Success;
    }
    var nBits := CeilLog2(ra);
    var toencode := t.Wrap(n - lb);
    if ra < 256 {
      code := bref.Pack(U32(toencode), nBits);
    } else {
      var nOctets := (nBits + 7) / 8;
      ghost var a, b := Enc(Zeros(Pad(s.pos)), true), Enc(Zeros(nOctets * 8 - nBits), true);
      ghost var c := Enc(ToBits(U32(toencode), nBits), true);
      code := bref.AlignBytesZero();
      ToBitsZero(nOctets * 8 - nBits);
      ZerosAre(nOctets * 8 - nBits);
      ghost var t1 := bref.State();
      code := bref.Pack(0, nOctets * 8 - nBits);
      EmitsThen(s, t1, bref.State(), a, b, code);
      if code != Success {
        EmitsRefused(s, bref.State(), Then(a, b), c, code);
        return code;
      }
      ghost var t2 := bref.State();
      code := bref.Pack(U32(toencode), nBits);
      EmitsThen(s, t2, bref.State(), Then(a, b), c, code);
      if code != Success {
        return code;
      }
      ghost var t3 := bref.State();
      AlignedEnd(s, t3, nOctets * 8 - nBits, nBits, U32(toencode));
      code := bref.AlignBytesZero();
      EmitsThen(s, t3, bref.State(), Then(Then(a, b), c), Enc(Zeros(0), true), code);
      NoZeros(Then(Then(a, b), c));
    }
  }

  lemma ZerosAre(n: nat)
    ensures Zeros(n) == seq(n, _ => false)
  {
  }

  lemma NoZeros(e: Enc)
    requires e.ok
    ensures Then(e, Enc(Zeros(0), true)) == e
  {
  }

  /** After the octets the cursor is on a byte boundary again. */
  lemma AlignedEnd(s: Snap, t: Snap, k: nat, n: nat, v: nat)
    requires (k + n) % 8 == 0
    requires var zeros := Then(Enc(Zeros(Pad(s.pos)), true), Enc(Zeros(k), true));
             Emits(s, t, Then(zeros, Enc(ToBits(v, n), true)), Success)
    ensures Pad(t.pos) == 0
  {
    hide ToBits, Appends, Pad;
    var e := Then(Then(Enc(Zeros(Pad(s.pos)), true), Enc(Zeros(k), true)), Enc(ToBits(v, n), true));
    AppendsPos(s, t, e);
    WholeOctets(s.pos + |e.bits|, s.pos + Pad(s.pos), (k + n) / 8, s.pos);
  }

  method UnpackAligned(bref: BitRef, t: IntType, lb: int, ub: int) returns (n: int, code: Code)
    requires bref.Valid() && GoodAligned(t, lb, ub)
    modifies bref`ptr, bref`offset
    ensures bref.Valid() && old(bref.State()).pos <= bref.State().pos
    ensures var d := DecAligned(t, bref.State().Bits(), old(bref.State()).pos, lb, ub);
            if d.Ok? then code == Success && d == Ok(n, bref.State().pos) else code == DecodeFail
  {
    hide BitsOf, ToNat, CeilLog2, Pow2, t.Wrap, Pad, DecBits;
    AlignedSizes(t, lb, ub);
    var ra := ub - lb + 1;
    if ra == 1 {
      return lb, Success;
    }
    var nBits := CeilLog2(ra);
    var val: u32;
    if ra < 256 {
      val, code := bref.Unpack(nBits);
    } else {
      var nOctets := (nBits + 7) / 8;
      code := bref.AlignBytes();
      ghost var p := bref.State().pos;
      val, code := bref.Unpack(nOctets * 8);
      if code != Success {
        return 0, code;
      }
      WholeOctets(bref.State().pos, p, nOctets, old(bref.State()).pos);
      code := bref.AlignBytes();
    }
    n := t.Wrap(t.Wrap(val) + lb);
  }

  lemma WholeOctets(q: nat, p: nat, k: nat, p0: nat)
    requires p == p0 + Pad(p0) && q == p + k * 8
    ensures Pad(q) == 0
  {
  }

  /** The reader returns the number modulo the stored width, whatever the encoder was given. */
  lemma {:induction false} AlignedReadsBack(t: IntType, b: seq<bool>, pos: nat, q: nat, v: nat, lb: int, ub: int)
    requires GoodAligned(t, lb, ub) && (InOctets(lb, ub) ==> pos % 8 == q % 8)
    requires At(b, pos, EncAligned(v, lb, ub, q).bits)
    ensures var w := Low(v, RangeBits(lb, ub));
            DecAligned(t, b, pos, lb, ub)
            == Ok(if lb + w <= t.Max() then lb + w else lb + w - t.Modulus(), pos + |EncAligned(v, lb, ub, q).bits|)
  {
    hide ToBits, ToNat, CeilLog2, Low, Pow2, t.Wrap, t.Modulus;
    var k := RangeBits(lb, ub);
    AlignedSizes(t, lb, ub);
    if lb == ub {
      LowZero(v);
      NoBits(v);
    } else {
      WrapOffset(t, Low(v, k), lb);
      if !InOctets(lb, ub) {
        DecAt(b, pos, v, k);
      } else {
        OctetsReadBack(b, pos, Pad(q), OctetBits(lb, ub) - k, v, k);
      }
    }
  }

  lemma {:induction false} OctetsReadBack(b: seq<bool>, pos: nat, pad: nat, z: nat, v: nat, k: nat)
    requires At(b, pos, Zeros(pad) + Zeros(z) + ToBits(v, k))
    ensures DecBits(b, pos + pad, z + k) == Ok(Low(v, k), pos + pad + z + k)
  {
    hide ToBits, Low, DecBits;
    AtThen(b, pos, Zeros(pad) + Zeros(z), ToBits(v, k));
    AtThen(b, pos, Zeros(pad), Zeros(z));
    ZerosBefore(b, pos + pad, z, v, k);
  }

  lemma LowZero(v: nat)
    ensures Low(v, 0) == 0
  {
  }

  /** Leading zeros do not change the value of a field. */
  lemma {:induction false} ZerosBefore(b: seq<bool>, pos: nat, z: nat, v: nat, k: nat)
    requires At(b, pos, Zeros(z)) && At(b, pos + z, ToBits(v, k))
    ensures DecBits(b, pos, z + k) == Ok(Low(v, k), pos + z + k)
  {
    hide ToBits, ToNat, Low, Pow2;
    ToBitsZero(z);
    ToNatToBits(0, z);
    LowOfZero(z);
    ToNatToBits(v, k);
    ToNatConcat(Zeros(z), ToBits(v, k));
    ShlOne(k);
    assert b[pos..pos + (z + k)] == b[pos..pos + z] + b[pos + z..pos + z + k];
  }

  lemma {:induction false} LowOfZero(n: nat)
    ensures Low(0, n) == 0
  {
    if n > 0 {
      LowOfZero(n - 1);
    }
  }

  /** The distance of two numbers of a type, going around the type's end if need be. */
  lemma {:induction false} OffsetModulo(t: IntType, n: int, lb: int)
    requires t.Contains(n) && t.Contains(lb)
    ensures var r := (n - lb) % t.Modulus();
            r == (if n >= lb then n - lb else n - lb + t.Modulus()) && t.Wrap(n - lb) == t.Wrap(r)
  {
    hide t.Wrap;
    ModIs(n - lb, t.Modulus(), if n >= lb then 0 else -1);
    WrapNear(t, n - lb);
    WrapNear(t, (n - lb) % t.Modulus());
  }

  /** Aligned numbers read back from any bit position, provided reader and writer agree on the byte boundaries,
      exactly when their distance from the lower bound, in the arithmetic of the type, is below two to the stored
      width: in particular when they are in range. */
  lemma {:induction false} AlignedRoundTrip(t: IntType, b: seq<bool>, pos: nat, q: nat, n: int, lb: int, ub: int)
    requires GoodAligned(t, lb, ub) && t.Contains(n)
    requires InOctets(lb, ub) ==> pos % 8 == q % 8
    requires At(b, pos, EncAligned(U32(t.Wrap(n - lb)), lb, ub, q).bits)
    ensures var d := DecAligned(t, b, pos, lb, ub);
            d.Ok? && d.pos == pos + |EncAligned(U32(t.Wrap(n - lb)), lb, ub, q).bits|
            && (d.val == n <==> (n - lb) % t.Modulus() < Pow2(RangeBits(lb, ub)))
    ensures lb <= n <= ub ==> (n - lb) % t.Modulus() < Pow2(RangeBits(lb, ub))
  {
    hide ToBits, ToNat, CeilLog2, Low, Pow2, t.Wrap, t.Modulus, EncAligned, DecAligned;
    var k, r := RangeBits(lb, ub), (n - lb) % t.Modulus();
    AlignedSizes(t, lb, ub);
    OffsetModulo(t, n, lb);
    AlignedReadsBack(t, b, pos, q, U32(t.Wrap(n - lb)), lb, ub);
    if r < Pow2(k) {
      Pow2Mono(k, 16);
      Pow2Half();
      OffsetBits(t, r, k);
      LowSmall(r, k);
    }
  }

  lemma {:induction false} Pow2Half()
    ensures Pow2(16) == 65536
  {
    hide Pow2;
    Pow2Zero();
    Pow2Plus8(0);
    Pow2Plus8(8);
  }
}
