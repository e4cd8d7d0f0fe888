/** Numbers stored as octet strings and as bit strings. */
module Numbers {
  import opened Bits
  import opened Strings

  /** The value of a big-endian octet string; more than 8 octets are not supported. */
  method OctstringToNumber(octets: array<byte>, nbytes: nat) returns (val: nat)
    requires nbytes <= 8 ==> nbytes <= octets.Length
    ensures val == if nbytes > 8 then 0 else ToNat(BitsOf(octets[..nbytes]))
  {
    hide BitsOf, ToNat, ToBits, Shl;
    if nbytes > 8 {
      return 0;
    }
    val := 0;
    var i := 0;
    NothingStored();
    assert octets[nbytes..nbytes] == [];
    while i < nbytes
      invariant i <= nbytes && val == ToNat(BitsOf(octets[nbytes - i..nbytes]))
    {
      ghost var tail := octets[nbytes - i..nbytes];
      FrontOctet(octets[nbytes - 1 - i], tail);
      val := val + Shl(octets[nbytes - 1 - i], i * 8);
      i := i + 1;
      assert octets[nbytes - i..nbytes] == [octets[nbytes - i]] + tail;
    }
    assert octets[0..nbytes] == octets[..nbytes];
  }

  /** Stores a number as a big-endian octet string. */
  method NumberToOctstring(octets: array<byte>, number: nat, nbytes: nat)
    requires nbytes <= 8 ==> nbytes <= octets.Length
    modifies octets
    ensures nbytes > 8 ==> octets[..] == old(octets[..])
    ensures nbytes <= 8 ==>
              BitsOf(octets[..nbytes]) == ToBits(number, 8 * nbytes) && octets[nbytes..] == old(octets[nbytes..])
  {
    hide BitsOf, ToNat, ToBits, Shr, And;
    if nbytes > 8 {
      return;
    }
    ghost var rest := octets[nbytes..];
    var i := 0;
    NothingStored();
    NoBitsLeft(number);
    assert octets[nbytes..nbytes] == [];
    while i < nbytes
      invariant i <= nbytes && octets[nbytes..] == rest
      invariant BitsOf(octets[nbytes - i..nbytes]) == ToBits(number, 8 * i)
    {
      ghost var was, tail := octets[..], octets[nbytes - i..nbytes];
      LowOctet(Shr(number, i * 8));
      var v := And(Shr(number, i * 8), 0xff);
      octets[nbytes - 1 - i] := v;
      assert octets[..] == was[nbytes - 1 - i := v];
      SliceUpdate(was, nbytes - 1 - i, nbytes, v);
      FrontOctet(v, tail);
      NextOctet(number, i);
      i := i + 1;
    }
    assert octets[0..nbytes] == octets[..nbytes];
  }

  lemma NothingStored()
    ensures BitsOf([]) == [] && ToNat([]) == 0
  {
  }

  lemma {:induction false} FrontOctet(v: byte, tail: seq<byte>)
    ensures BitsOf([v] + tail) == ToBits(v, 8) + BitsOf(tail)
    ensures ToNat(BitsOf([v] + tail)) == Shl(v, 8 * |tail|) + ToNat(BitsOf(tail))
  {
    BitsOfConcat([v], tail);
    OneOctet(v);
    hide BitsOf, ToBits, ToNat, Shl;
    ToNatConcat(ToBits(v, 8), BitsOf(tail));
    ByteBits(v);
  }

  lemma OneOctet(v: byte)
    ensures BitsOf([v]) == ToBits(v, 8)
  {
    assert [v][..0] == [];
    assert BitsOf([v]) == BitsOf([v][..0]) + ToBits(v, 8);
    hide ToBits;
  }

  lemma {:induction false} NextOctet(number: nat, i: nat)
    ensures ToBits(Low(Shr(number, 8 * i), 8), 8) + ToBits(number, 8 * i) == ToBits(number, 8 * (i + 1))
  {
    hide ToBits, Low, Shr;
    ToBitsSplit(number, 8, 8 * i);
    ToBitsLow(Shr(number, 8 * i), 8);
    ToBitsLow(number, 8 * i);
  }

  /** Octets that were stored for a number give it back, modulo their width: exactly the numbers that fit. */
  lemma {:induction false} OctstringNumberRoundTrip(octets: seq<byte>, number: nat)
    requires BitsOf(octets) == ToBits(number, 8 * |octets|)
    ensures ToNat(BitsOf(octets)) == Low(number, 8 * |octets|)
    ensures ToNat(BitsOf(octets)) == number <==> number < Pow2(8 * |octets|)
  {
    hide BitsOf, ToBits, ToNat, Pow2, Low;
    ToNatToBits(number, 8 * |octets|);
    if number < Pow2(8 * |octets|) {
      LowSmall(number, 8 * |octets|);
    }
  }

  /** The value of the octets of a bit string, stray bits included; more than 64 bits are not supported. Shifts are
      done on signed 32-bit numbers, which must not overflow. */
  method BitstringToNumber(buf: array<byte>, nbits: nat) returns (val: nat)
    requires nbits <= 64 ==> NofOctets(nbits) <= buf.Length && ShiftsFit(buf[..NofOctets(nbits)])
    ensures val == if nbits > 64 then 0 else ToNat(OctetsDown(buf[..], NofOctets(nbits)))
  {
    hide ToNat, ToBits, Shl, OctetsDown;
    if nbits > 64 {
      return 0;
    }
    val := 0;
    var nofBytes := NofOctets(nbits);
    var i := 0;
    NoOctetsDown(buf[..]);
    while i < nofBytes
      invariant i <= nofBytes && val == ToNat(OctetsDown(buf[..], i))
    {
      TopOctet(buf[..], i);
      OctetShift(buf[..nofBytes], i);
      val := val + Shl(buf[i], i * 8);
      i := i + 1;
    }
  }

  /** Every octet, shifted to its weight, is a non-negative signed 32-bit number. */
  predicate ShiftsFit(o: seq<byte>)
  {
    |o| <= 4 && (|o| == 4 ==> o[3] < 128)
  }

  lemma {:induction false} OctetShift(o: seq<byte>, i: nat)
    requires ShiftsFit(o) && i < |o|
    ensures Shl(o[i], i * 8) < Pow2(31)
  {
    hide Shl, Pow2;
    assert Pow2(8) == 256 && Pow2(7) == 128 by { BytePowers(); }
    if i == 3 {
      ShlBound(o[3], 7, 24);
    } else {
      ShlBound(o[i], 8, i * 8);
      Pow2Mono(8 + i * 8, 31);
    }
  }

  lemma {:induction false} BytePowers()
    ensures Pow2(8) == 256 && Pow2(7) == 128
  {
  }

  lemma NoOctetsDown(o: seq<byte>)
    ensures OctetsDown(o, 0) == [] && ToNat([]) == 0
  {
  }

  lemma {:induction false} TopOctet(o: seq<byte>, k: nat)
    requires k < |o|
    ensures ToNat(OctetsDown(o, k + 1)) == Shl(o[k], 8 * k) + ToNat(OctetsDown(o, k))
  {
    hide ToBits, ToNat, Shl;
    ToNatConcat(ToBits(o[k], 8), OctetsDown(o, k));
    ByteBits(o[k]);
  }

  /** A number that is stored as a bit string is read back modulo its width. */
  lemma {:induction false} BitstringNumberRoundTrip(number: nat, nbits: nat)
    requires 0 < nbits <= 64
    ensures ToNat(OctetsDown(NumberOctets(number, nbits), NofOctets(nbits))) == Low(number, nbits)
    ensures ToNat(OctetsDown(NumberOctets(number, nbits), NofOctets(nbits))) == number <==> number < Pow2(nbits)
  {
    hide ToBits, ToNat, Shl, Pow2, Low, OctetsDown, NumberOctets;
    var o, k, top := NumberOctets(number, nbits), NofOctets(nbits) - 1, TopBitCount(nbits);
    NumberAsBitstring(number, nbits);
    assert ToBits(o[k], top) + OctetsDown(o, k) == ToBits(number, nbits);
    TopOctet(o, k);
    ToNatConcat(ToBits(o[k], top), OctetsDown(o, k));
    ToNatToBits(o[k], top);
    LowSmall(o[k], top);
    ToNatToBits(number, nbits);
    if number < Pow2(nbits) {
      LowSmall(number, nbits);
    }
  }
}
