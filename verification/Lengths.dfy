/** Normally small numbers, length determinants and enumerated values. */
module Lengths {
  import opened Bits
  import opened BitCursor
  import opened Integers

  /** The library's limit for lengths, as its header defines it: one less than the standard's 16384. */
  const ASN_16K: nat := 16383

  function Field(v: nat, n: nat): Enc
  {
    Enc(ToBits(v, n), true)
  }

  const Refused: Enc := Enc([], false)

  // ----- normally small numbers -----

  function EncSmall(n: nat): Enc
  {
    if n <= 63 then Then(Field(0, 1), Field(n, 6)) else Then(Field(1, 1), Refused)
  }

  function DecSmall(b: seq<bool>, pos: nat): Dec<nat>
  {
    var (ext, p) :- DecBits(b, pos, 1);
    if ext == 0 then DecBits(b, p, 6) else Fail
  }

  method PackSmall(bref: BitRef, n: u32) returns (code: Code)
    requires bref.Valid()
    modifies bref`ptr, bref`offset, bref.buffer
    ensures bref.Valid()
    ensures Emits(old(bref.State()), bref.State(), EncSmall(n), code)
    ensures code != DecodeFail
  {
    hide Emits, Appends, ToBits, Then;
    ghost var s := bref.State();
    if n <= 63 {
      code := bref.Pack(0, 1);
      if code != Success {
        EmitsRefused(s, bref.State(), Field(0, 1), Field(n, 6), code);
        return code;
      }
      ghost var t := bref.State();
      code := bref.Pack(n, 6);
      EmitsThen(s, t, bref.State(), Field(0, 1), Field(n, 6), code);
    } else {
      code := bref.Pack(1, 1);
      PackThenRefuse(s, bref.State(), Field(1, 1), code);
      return EncodeFail;
    }
  }

  /** An encoder that writes and then gives up. */
  lemma PackThenRefuse(s: Snap, t: Snap, e: Enc, code: Code)
    requires Emits(s, t, e, code)
    ensures Emits(s, t, Then(e, Refused), EncodeFail)
  {
    assert e.bits + [] == e.bits;
  }

  method UnpackSmall(bref: BitRef) returns (n: u32, code: Code)
    requires bref.Valid()
    modifies bref`ptr, bref`offset
    ensures bref.Valid() && old(bref.State()).pos <= bref.State().pos
    ensures var d := DecSmall(bref.State().Bits(), old(bref.State()).pos);
            if d.Ok? then code == Success && d == Ok(n, bref.State().pos) else code == DecodeFail
  {
    hide BitsOf, ToNat, DecBits;
    n := 0;
    var ext, ret := bref.Unpack(1);
    if ret != Success {
      return n, ret;
    }
    if ext == 0 {
      n, ret := bref.Unpack(6);
      return n, ret;
    } else {
      return n, DecodeFail;
    }
  }

  lemma {:induction false} SmallRoundTrip(b: seq<bool>, pos: nat, n: nat)
    requires EncSmall(n).ok && At(b, pos, EncSmall(n).bits)
    ensures DecSmall(b, pos) == Ok(n, pos + |EncSmall(n).bits|)
  {
    hide ToBits, ToNat;
    assert Pow2(1) == 2 && Pow2(6) == 64;
    AtThen(b, pos, ToBits(0, 1), ToBits(n, 6));
    DecAt(b, pos, 0, 1);
    DecAt(b, pos + 1, n, 6);
  }

  // ----- length determinants -----

  function EncLength(n: nat): Enc
  {
    if n < 128 then Then(Field(0, 1), Field(n, 7))
    else if n < ASN_16K then Then(Field(1, 1), Then(Field(0, 1), Field(n, 14)))
    else Refused
  }

  function DecLength(b: seq<bool>, pos: nat): Dec<nat>
  {
    var (ext, p) :- DecBits(b, pos, 1);
    if ext == 0 then DecBits(b, p, 7)
    else
      var (ext2, q) :- DecBits(b, p, 1);
      if ext2 == 0 then DecBits(b, q, 14) else Fail
  }

  method PackLength(bref: BitRef, n: u32) returns (code: Code)
    requires bref.Valid()
    modifies bref`ptr, bref`offset, bref.buffer
    ensures bref.Valid()
    ensures Emits(old(bref.State()), bref.State(), EncLength(n), code)
    ensures code != DecodeFail
  {
    hide Emits, Appends, ToBits, Then;
    ghost var s := bref.State();
    if n < 128 {
      code := bref.Pack(0, 1);
      if code != Success {
        EmitsRefused(s, bref.State(), Field(0, 1), Field(n, 7), code);
        return code;
      }
      ghost var t := bref.State();
      code := bref.Pack(n, 7);
      EmitsThen(s, t, bref.State(), Field(0, 1), Field(n, 7), code);
    } else if n < ASN_16K {
      ghost var rest := Then(Field(0, 1), Field(n, 14));
      code := bref.Pack(1, 1);
      if code != Success {
        EmitsRefused(s, bref.State(), Field(1, 1), rest, code);
        return code;
      }
      ghost var t := bref.State();
      code := bref.Pack(0, 1);
      if code != Success {
        EmitsRefused(t, bref.State(), Field(0, 1), Field(n, 14), code);
        EmitsThen(s, t, bref.State(), Field(1, 1), rest, EncodeFail);
        return code;
      }
      ghost var u := bref.State();
      code := bref.Pack(n, 14);
      EmitsThen(t, u, bref.State(), Field(0, 1), Field(n, 14), code);
      EmitsThen(s, t, bref.State(), Field(1, 1), rest, code);
    } else {
      RefusesAll(s);
      return EncodeFail;
    }
  }

  lemma RefusesAll(s: Snap)
    requires s.Valid()
    ensures Emits(s, s, Refused, EncodeFail)
  {
    EmitsNothing(s);
  }

  /** The fragmented form, which the decoder does not support. */
  predicate Fragmented(b: seq<bool>, pos: nat)
  {
    && DecBits(b, pos, 1).Ok? && DecBits(b, pos, 1).val != 0
    && DecBits(b, pos + 1, 1).Ok? && DecBits(b, pos + 1, 1).val != 0
  }

  /** The length that the decoder stores and where it stops, whatever its outcome is. Where bits are missing it stops
      behind the last one, and the length is of no use. */
  function StoredLength(b: seq<bool>, pos: nat): (nat, nat)
  {
    var d := DecLength(b, pos);
    if d.Ok? then (d.val, d.pos) else if Fragmented(b, pos) then (0, pos + 2) else (0, |b|)
  }

  lemma LengthParts(b: seq<bool>, pos: nat)
    ensures var short := DecBits(b, pos, 1);
            DecLength(b, pos) ==
              if short.Fail? then Fail else if short.val == 0 then DecBits(b, short.pos, 7)
              else
                var long := DecBits(b, short.pos, 1);
                if long.Fail? then Fail else if long.val == 0 then DecBits(b, long.pos, 14) else Fail
    ensures var short := DecBits(b, pos, 1);
            Fragmented(b, pos) <==>
              && short.Ok? && short.val != 0
              && DecBits(b, short.pos, 1).Ok? && DecBits(b, short.pos, 1).val != 0
  {
  }

  method UnpackLength(bref: BitRef) returns (n: u32, code: Code)
    requires bref.Valid()
    modifies bref`ptr, bref`offset
    ensures bref.Valid() && old(bref.State()).pos <= bref.State().pos
    ensures var d := DecLength(bref.State().Bits(), old(bref.State()).pos);
            if d.Ok? then code == Success && d == Ok(n, bref.State().pos) else code == DecodeFail
    ensures var stored := StoredLength(bref.State().Bits(), old(bref.State()).pos);
            bref.State().pos == stored.1 && (n == stored.0 || bref.State().pos == |bref.State().Bits()|)
  {
    hide BitsOf, ToNat, DecBits, DecLength, Fragmented;
    LengthParts(bref.State().Bits(), bref.State().pos);
    n := 0;
    var ext, ret := bref.Unpack(1);
    if ret != Success {
      return n, ret;
    }
    if ext == 0 {
      n, ret := bref.Unpack(7);
    } else {
      ext, ret := bref.Unpack(1);
      if ret != Success {
        return n, ret;
      }
      if ext == 0 {
        n, ret := bref.Unpack(14);
      } else {
        return 0, DecodeFail;
      }
    }
    return n, ret;
  }

  /** Lengths read back across both forms; the encoder accepts exactly the lengths below its limit. */
  lemma {:induction false} LengthRoundTrip(b: seq<bool>, pos: nat, n: nat)
    requires At(b, pos, EncLength(n).bits)
    ensures EncLength(n).ok <==> n < 16383
    ensures n < 16383 ==> DecLength(b, pos) == Ok(n, pos + (if n < 128 then 8 else 16))
    ensures EncLength(n).ok ==> |EncLength(n).bits| == if n < 128 then 8 else 16
  {
    hide ToBits, ToNat;
    assert Pow2(1) == 2 && Pow2(7) == 128;
    if n < 128 {
      AtThen(b, pos, ToBits(0, 1), ToBits(n, 7));
      DecAt(b, pos, 0, 1);
      DecAt(b, pos + 1, n, 7);
    } else if n < ASN_16K {
      AtThen(b, pos, ToBits(1, 1), ToBits(0, 1) + ToBits(n, 14));
      AtThen(b, pos + 1, ToBits(0, 1), ToBits(n, 14));
      DecAt(b, pos, 1, 1);
      DecAt(b, pos + 1, 0, 1);
      Pow2Plus8(6);
      assert Pow2(6) == 64;
      DecAt(b, pos + 2, n, 14);
    }
  }

  /** The reader accepts one length more than the writer: 16383 itself. */
  lemma {:induction false} LongestLength(b: seq<bool>, pos: nat)
    requires At(b, pos, ToBits(2, 2) + ToBits(16383, 14))
    ensures DecLength(b, pos) == Ok(16383, pos + 16) && !EncLength(16383).ok
  {
    ToBitsSplit(2, 1, 1);
    hide ToBits, ToNat;
    assert Pow2(1) == 2;
    assert Shr(2, 1) == 1 && Low(2, 1) == 0;
    AtThen(b, pos, ToBits(2, 2), ToBits(16383, 14));
    AtThen(b, pos, ToBits(1, 1), ToBits(0, 1));
    DecAt(b, pos, 1, 1);
    DecAt(b, pos + 1, 0, 1);
    Pow2Plus8(6);
    assert Pow2(6) == 64;
    DecAt(b, pos + 2, 16383, 14);
  }

  // ----- enumerated values -----

  /** The number of values of an enumeration: in all, and those that came with extensions. */
  predicate GoodEnum(nofTypes: nat, nofExts: nat, hasExt: bool)
  {
    nofTypes <= 65536 && (if hasExt then nofExts < nofTypes else 0 < nofTypes)
  }

  function EncEnum(e: nat, nofTypes: nat, nofExts: nat, hasExt: bool): Enc
    requires GoodEnum(nofTypes, nofExts, hasExt)
  {
    if e >= nofTypes then Refused
    else if !hasExt then Field(e, CeilLog2(nofTypes))
    else
      var root := nofTypes - nofExts;
      if e < root then Then(Field(0, 1), Field(e, CeilLog2(root)))
      else Then(Field(1, 1), EncSmall(e - root))
  }

  function DecEnum(b: seq<bool>, pos: nat, nofTypes: nat, nofExts: nat, hasExt: bool): (d: Dec<nat>)
    requires GoodEnum(nofTypes, nofExts, hasExt)
  {
    var (val, p) :- DecEnumIndex(b, pos, nofTypes, nofExts, hasExt);
    if val < nofTypes then Ok(val, p) else Fail
  }

  function DecEnumIndex(b: seq<bool>, pos: nat, nofTypes: nat, nofExts: nat, hasExt: bool): Dec<nat>
    requires GoodEnum(nofTypes, nofExts, hasExt)
  {
    if !hasExt then DecBits(b, pos, CeilLog2(nofTypes))
    else
      var (ext, p) :- DecBits(b, pos, 1);
      if ext == 0 then DecBits(b, p, CeilLog2(nofTypes - nofExts))
      else
        var (n, q) :- DecSmall(b, p);
        Ok(n + (nofTypes - nofExts), q)
  }

  /** The encoder for enumerations with an extension marker. */
  method PackEnumExt(bref: BitRef, e: u32, nbits: nat, nofNoext: u32) returns (code: Code)
    requires bref.Valid() && nbits <= 31
    modifies bref`ptr, bref`offset, bref.buffer
    ensures bref.Valid()
    ensures Emits(old(bref.State()), bref.State(),
                  if e < nofNoext then Then(Field(0, 1), Field(e, nbits))
                  else Then(Field(1, 1), EncSmall(e - nofNoext)), code)
    ensures code != DecodeFail
  {
    hide Emits, Appends, ToBits, Then, EncSmall;
    ghost var s := bref.State();
    var ext := e >= nofNoext;
    code := bref.Pack(if ext then 1 else 0, 1);
    if code != Success {
      if ext {
        EmitsRefused(s, bref.State(), Field(1, 1), EncSmall(e - nofNoext), code);
      } else {
        EmitsRefused(s, bref.State(), Field(0, 1), Field(e, nbits), code);
      }
      return code;
    }
    ghost var t := bref.State();
    if !ext {
      code := bref.Pack(e, nbits);
      EmitsThen(s, t, bref.State(), Field(0, 1), Field(e, nbits), code);
    } else {
      code := PackSmall(bref, e - nofNoext);
      EmitsThen(s, t, bref.State(), Field(1, 1), EncSmall(e - nofNoext), code);
    }
  }

  method PackEnum(bref: BitRef, e: u32, nofTypes: nat, nofExts: nat, hasExt: bool) returns (code: Code)
    requires bref.Valid() && GoodEnum(nofTypes, nofExts, hasExt)
    modifies bref`ptr, bref`offset, bref.buffer
    ensures bref.Valid()
    ensures Emits(old(bref.State()), bref.State(), EncEnum(e, nofTypes, nofExts, hasExt), code)
    ensures code != DecodeFail
  {
    hide Emits, Appends, ToBits, Then, EncSmall, CeilLog2;
    if e >= nofTypes {
      RefusesAll(bref.State());
      return EncodeFail;
    }
    if hasExt {
      RangeBitsBound(Uint32, 1, nofTypes - nofExts);
      var nofBits := CeilLog2(nofTypes - nofExts);
      code := PackEnumExt(bref, e, nofBits, nofTypes - nofExts);
    } else {
      RangeBitsBound(Uint32, 1, nofTypes);
      var nofBits := CeilLog2(nofTypes);
      code := bref.Pack(e, nofBits);
    }
  }

  method UnpackEnum(bref: BitRef, nofTypes: nat, nofExts: nat, hasExt: bool) returns (val: u32, code: Code)
    requires bref.Valid() && GoodEnum(nofTypes, nofExts, hasExt)
    modifies bref`ptr, bref`offset
    ensures bref.Valid() && old(bref.State()).pos <= bref.State().pos
    ensures var d := DecEnum(bref.State().Bits(), old(bref.State()).pos, nofTypes, nofExts, hasExt);
            if d.Ok? then code == Success && d == Ok(val, bref.State().pos) else code == DecodeFail
  {
    hide BitsOf, ToNat, CeilLog2, DecSmall, Pow2, DecBits;
    val := 0;
    if hasExt {
      RangeBitsBound(Uint32, 1, nofTypes - nofExts);
      var nofBits := CeilLog2(nofTypes - nofExts);
      var ext: u32;
      ext, code := bref.Unpack(1);
      if code != Success {
        return val, code;
      }
      if ext == 0 {
        val, code := bref.Unpack(nofBits);
      } else {
        val, code := UnpackSmall(bref);
        SmallBound(bref.State().Bits(), old(bref.State()).pos + 1);
        val := U32(val + (nofTypes - nofExts));
      }
    } else {
      RangeBitsBound(Uint32, 1, nofTypes);
      var nofBits := CeilLog2(nofTypes);
      val, code := bref.Unpack(nofBits);
    }
    if val >= nofTypes {
      code := DecodeFail;
    }
  }

  lemma {:induction false} SmallBound(b: seq<bool>, pos: nat)
    ensures DecSmall(b, pos).Ok? ==> DecSmall(b, pos).val <= 63
  {
    assert Pow2(6) == 64;
  }

  /** Every value reads back; it is refused exactly when it is no value of the enumeration or comes
      more than 64 places into the extensions. */
  lemma {:induction false} EnumRoundTrip(b: seq<bool>, pos: nat, e: nat, nofTypes: nat, nofExts: nat, hasExt: bool)
    requires GoodEnum(nofTypes, nofExts, hasExt)
    requires At(b, pos, EncEnum(e, nofTypes, nofExts, hasExt).bits)
    ensures var enc := EncEnum(e, nofTypes, nofExts, hasExt);
            && (enc.ok <==> e < nofTypes && (hasExt ==> e - (nofTypes - nofExts) <= 63))
            && (enc.ok ==> DecEnum(b, pos, nofTypes, nofExts, hasExt) == Ok(e, pos + |enc.bits|))
  {
    hide ToBits, ToNat, CeilLog2, DecSmall;
    if EncEnum(e, nofTypes, nofExts, hasExt).ok {
      if !hasExt {
        Pow2Covers(e, nofTypes);
        DecAt(b, pos, e, CeilLog2(nofTypes));
      } else {
        assert Pow2(1) == 2;
        var root := nofTypes - nofExts;
        if e < root {
          Pow2Covers(e, root);
          AtThen(b, pos, ToBits(0, 1), ToBits(e, CeilLog2(root)));
          DecAt(b, pos, 0, 1);
          DecAt(b, pos + 1, e, CeilLog2(root));
        } else {
          AtThen(b, pos, ToBits(1, 1), EncSmall(e - root).bits);
          DecAt(b, pos, 1, 1);
          SmallRoundTrip(b, pos + 1, e - root);
        }
      }
    }
  }

  lemma Pow2Covers(e: nat, n: nat)
    requires e < n
    ensures e < Pow2(CeilLog2(n))
  {
  }
}
