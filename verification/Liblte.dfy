/** The older codec that keeps one bit per byte. It is the plain form that the masked reader refines. */
module Liblte {
  import opened Bits
  import opened BitCursor

  /** A bit array in this codec's form. */
  predicate IsBitArray(a: seq<byte>)
  {
    forall i :: 0 <= i < |a| ==> a[i] <= 1
  }

  function AsBits(a: seq<byte>): (bits: seq<bool>)
    ensures |bits| == |a|
  {
    seq(|a|, i requires 0 <= i < |a| => a[i] == 1)
  }

  function AsArray(bits: seq<bool>): (a: seq<byte>)
    ensures |a| == |bits| && IsBitArray(a) && AsBits(a) == bits
  {
    seq(|bits|, i requires 0 <= i < |bits| => if bits[i] then 1 else 0)
  }

  lemma {:induction false} ToBitsAt(v: nat, n: nat, i: nat)
    requires i < n
    ensures ToBits(v, n)[i] <==> Shr(v, n - i - 1) % 2 == 1
  {
    if i < n - 1 {
      ToBitsAt(v / 2, n - 1, i);
    }
  }

  lemma {:induction false} LowBit(v: nat)
    ensures And(v, 1) == v % 2
  {
    assert And(v / 2, 0) == 0;
  }

  /** Stores the n low bits of a value, one per byte, and advances the position. */
  method Value2Bits(value: u32, bits: array<byte>, at: nat, n: nat) returns (next: nat)
    requires at + n <= bits.Length
    modifies bits
    ensures next == at + n
    ensures bits[..] == old(bits[..at]) + AsArray(ToBits(value, n)) + old(bits[at + n..])
  {
    hide Shr, ToBits, And;
    ghost var was := bits[..];
    var i := 0;
    while i < n
      invariant i <= n
      invariant forall j :: 0 <= j < i ==> bits[at + j] == AsArray(ToBits(value, n))[j]
      invariant forall j :: 0 <= j < bits.Length && !(at <= j < at + i) ==> bits[j] == was[j]
    {
      LowBit(Shr(value, n - i - 1));
      ToBitsAt(value, n, i);
      bits[at + i] := And(Shr(value, n - i - 1), 1);
      i := i + 1;
    }
    return at + n;
  }

  /** The value of n stored bits; the position is advanced. */
  method Bits2Value(bits: array<byte>, at: nat, n: nat) returns (value: u32, next: nat)
    requires at + n <= bits.Length && n <= 32 && IsBitArray(bits[at..at + n])
    ensures next == at + n && value == ToNat(AsBits(bits[at..at + n]))
  {
    hide Or, Shl, ToNat, Pow2, Low;
    ghost var b := AsBits(bits[at..at + n]);
    value := 0;
    var i := 0;
    NothingRead(b, n);
    while i < n
      invariant i <= n && Reading(b, n, value, i)
    {
      ReadOne(b, n, value, i, bits[at + i]);
      value := Or(value, Shl32(bits[at + i], n - i - 1));
      i := i + 1;
    }
    AllRead(b, n, value);
    return value, at + n;
  }

  /** After i bits, value holds them at their final weights. */
  ghost predicate Reading(b: seq<bool>, n: nat, value: nat, i: nat) {
    |b| == n && i <= n && value == Shl(ToNat(b[..i]), n - i)
  }

  lemma {:induction false} NothingRead(b: seq<bool>, n: nat)
    requires |b| == n
    ensures Reading(b, n, 0, 0)
  {
    ShlOne(n);
  }

  lemma {:induction false} AllRead(b: seq<bool>, n: nat, value: nat)
    requires Reading(b, n, value, n)
    ensures value == ToNat(b)
  {
    assert b[..n] == b;
  }

  lemma {:induction false} ReadOne(b: seq<bool>, n: nat, value: nat, i: nat, bit: byte)
    requires n <= 32 && i < n && Reading(b, n, value, i) && bit == (if b[i] then 1 else 0)
    ensures Or(value, Shl32(bit, n - i - 1)) < TWO_32
    ensures Reading(b, n, Or(value, Shl32(bit, n - i - 1)), i + 1)
  {
    hide Or, Shl, Low, Pow2;
    var k := n - i - 1;
    var x := ToNat(b[..i]);
    assert b[..i + 1][..i] == b[..i];
    assert ToNat(b[..i + 1]) == x + x + bit;
    ShlOne(k);
    Pow2Mono(k, 31);
    Pow2Word(31);
    Pow2Word(n);
    ShlOut(x, k);
    OrSetBit(value, bit, k);
    ShlBound(x + x + bit, i + 1, k);
    ShlSum(x + x, bit, k);
  }

  lemma {:induction false} ShlOut(x: nat, k: nat)
    ensures Shl(x, k + 1) == Shl(x + x, k) && Low(Shl(x, k + 1), k + 1) == 0
  {
    ShlLow(x, 0, k + 1);
    ShlSum(x, x, k);
  }

  /** Unpacks bytes into bits. */
  method Unpack(bytes: array<byte>, nBytes: nat, bits: array<byte>)
    requires bytes != bits && nBytes <= bytes.Length && 8 * nBytes <= bits.Length
    modifies bits
    ensures bits[..] == AsArray(BitsOf(bytes[..nBytes])) + old(bits[8 * nBytes..])
  {
    hide ToBits, BitsOf, AsArray;
    ghost var was, src := bits[..], bytes[..];
    var bitPtr, i := 0, 0;
    UnpackStart(src, was);
    while i < nBytes
      invariant i <= nBytes && bitPtr == 8 * i && bytes[..] == src
      invariant bits[..] == AsArray(BitsOf(src[..i])) + was[8 * i..]
    {
      ghost var b := bits[..];
      bitPtr := Value2Bits(bytes[i], bits, bitPtr, 8);
      UnpackMore(src, was, b, bits[..], i);
      i := i + 1;
    }
    assert src[..nBytes] == bytes[..nBytes];
  }

  lemma UnpackStart(src: seq<byte>, was: seq<byte>)
    ensures was == AsArray(BitsOf(src[..0])) + was[0..]
  {
  }

  lemma {:induction false} UnpackMore(src: seq<byte>, was: seq<byte>, b: seq<byte>, c: seq<byte>, i: nat)
    requires i < |src| && 8 * i + 8 <= |was| && b == AsArray(BitsOf(src[..i])) + was[8 * i..]
    requires c == b[..8 * i] + AsArray(ToBits(src[i], 8)) + b[8 * i + 8..]
    ensures c == AsArray(BitsOf(src[..i + 1])) + was[8 * (i + 1)..]
  {
    var x, y := BitsOf(src[..i]), ToBits(src[i], 8);
    assert src[..i + 1][..i] == src[..i];
    assert BitsOf(src[..i + 1]) == x + y;
    hide BitsOf, ToBits;
    AsArrayConcat(x, y);
    assert b[8 * i + 8..] == was[8 * i..][8..] == was[8 * (i + 1)..];
  }

  lemma AsArrayConcat(x: seq<bool>, y: seq<bool>)
    ensures AsArray(x + y) == AsArray(x) + AsArray(y)
  {
  }

  /** The bytes that packing a bit sequence yields. A partial last byte holds its bits at the low end. */
  function PackedBytes(b: seq<bool>): (bytes: seq<byte>)
    decreases |b|
  {
    if b == [] then []
    else if |b| <= 8 then [U8(ToNat(b))]
    else [U8(ToNat(b[..8]))] + PackedBytes(b[8..])
  }

  lemma {:induction false} PackedFront(b: seq<bool>)
    requires |b| > 0
    ensures |b| >= 8 ==> PackedBytes(b) == [U8(ToNat(b[..8]))] + PackedBytes(b[8..])
  {
    hide ToNat;
    if |b| == 8 {
      assert b[..8] == b && b[8..] == [];
    }
  }

  lemma FrontOfSum(x: seq<bool>, y: seq<bool>)
    requires |x| >= 8
    ensures (x + y)[..8] == x[..8] && (x + y)[8..] == x[8..] + y
  {
  }

  lemma {:induction false} PackedSplit(x: seq<bool>, y: seq<bool>)
    requires |x| % 8 == 0
    ensures PackedBytes(x + y) == PackedBytes(x) + PackedBytes(y)
    decreases |x|
  {
    hide ToNat, PackedBytes, U8;
    if x == [] {
      assert x + y == y;
      PackedNone();
    } else {
      PackedSplit(x[8..], y);
      FrontOfSum(x, y);
      PackedFront(x);
      PackedFront(x + y);
    }
  }

  lemma {:induction false} PackedLength(x: seq<bool>, n: nat)
    requires |x| == 8 * n
    ensures |PackedBytes(x)| == n
  {
    hide ToNat;
    if n > 1 {
      PackedLength(x[8..], n - 1);
    }
  }

  /** Packs bits into bytes. */
  method Pack(bits: array<byte>, nBits: nat, bytes: array<byte>)
    requires bits != bytes && nBits <= bits.Length && (nBits + 7) / 8 <= bytes.Length && IsBitArray(bits[..nBits])
    modifies bytes
    ensures bytes[..] == PackedBytes(AsBits(bits[..nBits])) + old(bytes[(nBits + 7) / 8..])
  {
    hide PackedBytes, ToNat, AsBits, Pow2, IsBitArray;
    ghost var was, b, src := bytes[..], AsBits(bits[..nBits]), bits[..];
    ghost var used := (nBits + 7) / 8;
    assert old(bytes[used..]) == was[used..];
    var bitPtr, i := 0, 0;
    var value: u32;
    PackedStart(b, was);
    while i < nBits / 8
      invariant i <= nBits / 8 && bitPtr == 8 * i && bits[..] == src
      invariant bytes[..] == PackedBytes(b[..8 * i]) + was[i..]
    {
      SliceBits(src, nBits, bitPtr, 8);
      PackedMore(b, was, i, 8, bytes[..]);
      value, bitPtr := Bits2Value(bits, bitPtr, 8);
      bytes[i] := U8(value);
      i := i + 1;
    }
    assert b[..nBits] == b;
    if nBits % 8 > 0 {
      SliceBits(src, nBits, bitPtr, nBits % 8);
      ghost var now := bytes[..];
      PackedMore(b, was, i, nBits % 8, now);
      value, bitPtr := Bits2Value(bits, bitPtr, nBits % 8);
      bytes[nBits / 8] := U8(value);
      assert used == i + 1 && 8 * i + nBits % 8 == nBits;
      assert value == ToNat(b[8 * i..8 * i + nBits % 8]);
      assert bytes[..] == now[i := U8(value)];
      assert bytes[..] == PackedBytes(b) + was[used..];
    } else {
      assert used == i;
      assert bytes[..] == PackedBytes(b) + was[used..];
    }
  }

  lemma PackedStart(b: seq<bool>, was: seq<byte>)
    ensures was == PackedBytes(b[..0]) + was[0..]
  {
  }

  lemma SliceBits(src: seq<byte>, n: nat, at: nat, k: nat)
    requires at + k <= n <= |src| && IsBitArray(src[..n])
    ensures IsBitArray(src[at..at + k]) && AsBits(src[at..at + k]) == AsBits(src[..n])[at..at + k]
  {
    assert src[at..at + k] == src[..n][at..at + k];
  }

  lemma {:induction false} PackedMore(b: seq<bool>, was: seq<byte>, n: nat, k: nat, bytes: seq<byte>)
    requires 0 < k <= 8 && 8 * n + k <= |b| && n < |was|
    requires bytes == PackedBytes(b[..8 * n]) + was[n..]
    ensures n < |bytes|
    ensures bytes[n := U8(ToNat(b[8 * n..8 * n + k]))] == PackedBytes(b[..8 * n + k]) + was[n + 1..]
  {
    var x, y := b[..8 * n], b[8 * n..8 * n + k];
    PackedSplit(x, y);
    PackedLength(x, n);
    assert b[..8 * n + k] == x + y;
    PackedOne(y);
    hide ToNat, PackedBytes;
  }

  lemma PackedOne(y: seq<bool>)
    requires 0 < |y| <= 8
    ensures PackedBytes(y) == [U8(ToNat(y))]
  {
  }

  // ----- round trips -----

  /** Unpacking bytes and packing the bits again restores the bytes. */
  lemma {:induction false} BytesRoundTrip(bytes: seq<byte>)
    ensures PackedBytes(BitsOf(bytes)) == bytes
  {
    hide ToBits, ToNat, PackedBytes, BitsOf;
    if bytes == [] {
      NoBytes();
      PackedNone();
    } else {
      var head, last := bytes[..|bytes| - 1], bytes[|bytes| - 1];
      BytesRoundTrip(head);
      ByteBits(last);
      PackedSplit(BitsOf(head), ToBits(last, 8));
      PackedOne(ToBits(last, 8));
      BitsOfMore(head, last);
      assert head + [last] == bytes;
    }
  }

  /** Packing bits and unpacking the bytes again pads the tail of an incomplete byte in front, not behind. */
  lemma {:induction false} BitsRoundTrip(b: seq<bool>)
    ensures var k := |b| / 8 * 8;
            BitsOf(PackedBytes(b)) == if |b| % 8 == 0 then b else b[..k] + Zeros(8 - |b| % 8) + b[k..]
    decreases |b|
  {
    hide PackedBytes, ToNat, ToBits;
    if b != [] {
      var k := (|b| - 1) / 8 * 8;
      var head, tail := b[..k], b[k..];
      BitsRoundTrip(head);
      PaddedTail(tail);
      assert b == head + tail;
      PackedSplit(head, tail);
      PackedOne(tail);
      BitsOfMore(PackedBytes(head), U8(ToNat(tail)));
      TailSplit(b, k);
    } else {
      PackedNone();
    }
  }

  lemma PackedNone()
    ensures PackedBytes([]) == []
  {
  }

  lemma NoBytes()
    ensures BitsOf([]) == []
  {
  }

  lemma BitsOfMore(p: seq<byte>, last: byte)
    ensures BitsOf(p + [last]) == BitsOf(p) + ToBits(last, 8)
  {
    assert (p + [last])[..|p|] == p;
  }

  lemma TailSplit(b: seq<bool>, k: nat)
    requires b != [] && k == (|b| - 1) / 8 * 8
    ensures |b| % 8 == 0 ==> b[..k] + (Zeros(8 - |b[k..]|) + b[k..]) == b
    ensures |b| % 8 != 0 ==>
              k == |b| / 8 * 8 && b[..k] + (Zeros(8 - |b[k..]|) + b[k..]) == b[..k] + Zeros(8 - |b| % 8) + b[k..]
  {
  }

  lemma {:induction false} PaddedTail(tail: seq<bool>)
    requires 0 < |tail| <= 8
    ensures ToBits(U8(ToNat(tail)), 8) == Zeros(8 - |tail|) + tail
  {
    hide ToBits, ToNat, Pow2, Shr, Low;
    var r := |tail|;
    Pow2Byte(r);
    LowSmall(ToNat(tail), r);
    ToBitsSplit(ToNat(tail), 8 - r, r);
    ToBitsZero(8 - r);
    ToBitsToNat(tail);
  }

  /** So a bit sequence comes back as a prefix exactly when it fills whole bytes or its tail is all zeros. */
  lemma {:induction false} BitsComeBack(b: seq<bool>)
    ensures b <= BitsOf(PackedBytes(b)) <==> |b| % 8 == 0 || (forall i :: |b| / 8 * 8 <= i < |b| ==> !b[i])
  {
    hide BitsOf, PackedBytes, Zeros;
    BitsRoundTrip(b);
    if |b| % 8 != 0 {
      PaddedIsPrefix(b, |b| / 8 * 8, |b| % 8);
    }
  }

  lemma {:induction false} PaddedIsPrefix(b: seq<bool>, k: nat, r: nat)
    requires 0 < r < 8 && |b| == k + r
    ensures b <= b[..k] + Zeros(8 - r) + b[k..] <==> forall i :: k <= i < |b| ==> !b[i]
  {
    var c := b[..k] + Zeros(8 - r) + b[k..];
    if b <= c {
      TailIsZero(b, c, k, r);
    }
  }

  lemma {:induction false} TailIsZero(b: seq<bool>, c: seq<bool>, k: nat, r: nat)
    requires 0 < r < 8 && |b| == k + r && c == b[..k] + Zeros(8 - r) + b[k..] && b <= c
    ensures forall i :: k <= i < |b| ==> !b[i]
  {
    var i := k;
    while i < |b|
      invariant k <= i <= |b| && forall j :: k <= j < i ==> !b[j]
    {
      assert b[i] == c[i];
      assert i >= k + 8 - r ==> c[i] == b[i - (8 - r)];
      i := i + 1;
    }
  }

  // ----- agreement with the masked reader -----

  /** The masked reader, at any bit position and for any width up to 32, returns what this codec reads at that
      position from the unpacked buffer. */
  method ReadBothWays(bref: BitRef, n: nat) returns (masked: u32, code: Code, plain: u32)
    requires bref.Valid() && n <= 32
    modifies bref`ptr, bref`offset
    ensures bref.Valid() && (code == Success <==> old(bref.State()).pos + n <= 8 * bref.max)
    ensures code == Success ==> masked == plain == DecBits(bref.State().Bits(), old(bref.State()).pos, n).val
  {
    hide BitsOf, ToNat, Pow2, AsArray, AsBits;
    var bits := new byte[8 * bref.max](_ => 0);
    ghost var p := bref.State().pos;
    Unpack(bref.buffer, bref.max, bits);
    ghost var b := bref.State().Bits();
    assert bits[..] == AsArray(b) + [];
    var d := bref.Distance();
    plain := 0;
    if d + n <= bits.Length {
      SliceOfArray(b, d, n, bits[..]);
      assert bits[..][d..d + n] == bits[d..d + n];
      var next: nat;
      plain, next := Bits2Value(bits, d, n);
    }
    masked, code := bref.Unpack(n);
  }

  lemma SliceOfArray(b: seq<bool>, d: nat, n: nat, a: seq<byte>)
    requires d + n <= |b| && a == AsArray(b) + []
    ensures IsBitArray(a[d..d + n]) && AsBits(a[d..d + n]) == b[d..d + n]
  {
  }
}
