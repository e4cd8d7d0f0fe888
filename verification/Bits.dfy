/** Unsigned machine arithmetic on mathematical integers, and the bit sequences it stands for.
    Bit sequences are big-endian: the first element is the most significant bit. */
module Bits {

  type byte = b: int | 0 <= b < 256

  const TWO_32: int := 0x1_0000_0000

  type u32 = v: int | 0 <= v < TWO_32

  // ----- shifts and the low digits of a number -----

  /** v * 2^n */
  function Shl(v: nat, n: nat): (r: nat)
    ensures r >= v
  {
    if n == 0 then v else 2 * Shl(v, n - 1)
  }

  /** v / 2^n */
  function Shr(v: nat, n: nat): nat
  {
    if n == 0 then v else Shr(v / 2, n - 1)
  }

  function Pow2(n: nat): (p: nat)
    ensures p >= 1
  {
    if n == 0 then 1 else 2 * Pow2(n - 1)
  }

  /** v % 2^n */
  function Low(v: nat, n: nat): (r: nat)
    ensures r < Pow2(n)
  {
    if n == 0 then 0 else 2 * Low(v / 2, n - 1) + v % 2
  }

  lemma {:induction false} Parts(v: nat, n: nat)
    ensures v == Shl(Shr(v, n), n) + Low(v, n)
  {
    if n > 0 {
      Parts(v / 2, n - 1);
    }
  }

  lemma {:induction false} ShlIsProduct(v: nat, n: nat)
    ensures Shl(v, n) == v * Pow2(n)
  {
    if n > 0 {
      ShlIsProduct(v, n - 1);
      DoubleProduct(v, Pow2(n - 1));
    }
  }

  lemma DoubleProduct(x: nat, p: nat)
    ensures x * (2 * p) == 2 * (x * p)
  {
  }

  /** Shr and Low are the quotient and the remainder of division by a power of two. */
  lemma ShrLowAreDivMod(v: nat, n: nat)
    ensures Shr(v, n) == v / Pow2(n) && Low(v, n) == v % Pow2(n)
  {
    Parts(v, n);
    ShlIsProduct(Shr(v, n), n);
    DivModUnique(v, Pow2(n), Shr(v, n), Low(v, n));
  }

  lemma DivModUnique(a: nat, m: nat, q: nat, r: nat)
    requires r < m && a == q * m + r
    ensures a / m == q && a % m == r
  {
    var d := a / m;
    if d < q {
      MulMono(d + 1, q, m);
    } else if d > q {
      MulMono(q + 1, d, m);
    }
  }

  lemma MulMono(x: nat, y: nat, m: nat)
    requires x <= y
    ensures x * m <= y * m
    ensures x >= 1 ==> x * m == (x - 1) * m + m
  {
  }

  lemma {:induction false} Pow2Mono(a: nat, b: nat)
    requires a <= b
    ensures Pow2(a) <= Pow2(b)
    ensures a < b ==> 2 * Pow2(a) <= Pow2(b)
    decreases b
  {
    if a < b {
      Pow2Mono(a, b - 1);
    }
  }

  lemma {:induction false} ShlAdd(v: nat, m: nat, n: nat)
    ensures Shl(Shl(v, m), n) == Shl(v, m + n)
  {
    if n > 0 {
      ShlAdd(v, m, n - 1);
    }
  }

  lemma {:induction false} ShlSum(a: nat, b: nat, n: nat)
    ensures Shl(a + b, n) == Shl(a, n) + Shl(b, n)
  {
    if n > 0 {
      ShlSum(a, b, n - 1);
    }
  }

  lemma {:induction false} ShlOne(n: nat)
    ensures Shl(1, n) == Pow2(n) && Shl(0, n) == 0
  {
    if n > 0 {
      ShlOne(n - 1);
    }
  }

  /** Shifting an n-bit number by m leaves room for m more bits below 2^(n+m). */
  lemma {:induction false} ShlBound(v: nat, n: nat, m: nat)
    requires v < Pow2(n)
    ensures Shl(v, m) + Pow2(m) <= Pow2(n + m)
  {
    if m > 0 {
      ShlBound(v, n, m - 1);
    }
  }

  lemma {:induction false} ShrBound(v: nat, n: nat, m: nat)
    requires v < Pow2(n + m)
    ensures Shr(v, m) < Pow2(n)
  {
    if m > 0 {
      ShrBound(v / 2, n, m - 1);
    }
  }

  lemma {:induction false} LowSmall(v: nat, n: nat)
    requires v < Pow2(n)
    ensures Low(v, n) == v && Shr(v, n) == 0
  {
    if n > 0 {
      LowSmall(v / 2, n - 1);
    }
  }

  /** The low digits of the low digits. */
  lemma {:induction false} LowLow(v: nat, n: nat, m: nat)
    requires m <= n
    ensures Low(Low(v, n), m) == Low(v, m)
  {
    if m > 0 {
      var d := v / 2;
      LowLow(d, n - 1, m - 1);
      assert Low(v, n) / 2 == Low(d, n - 1) && Low(v, n) % 2 == v % 2;
    }
  }

  lemma {:induction false} ShlLow(v: nat, lo: nat, n: nat)
    requires lo < Pow2(n)
    ensures Shr(Shl(v, n) + lo, n) == v && Low(Shl(v, n) + lo, n) == lo
  {
    if n > 0 {
      ShlLow(v, lo / 2, n - 1);
      assert (Shl(v, n) + lo) / 2 == Shl(v, n - 1) + lo / 2;
    }
  }

  lemma {:induction false} Pow2Byte(k: nat)
    requires k <= 8
    ensures Pow2(k) <= 256 && (k < 8 ==> Pow2(k) <= 128)
  {
    Pow2Mono(k, 8);
    assert Pow2(8) == 256;
    if k < 8 {
      Pow2Mono(k, 7);
      assert Pow2(7) == 128;
    }
  }

  lemma {:induction false} Pow2Plus4(n: nat)
    ensures Pow2(n + 4) == 16 * Pow2(n)
  {
    assert Pow2(n + 2) == 2 * Pow2(n + 1) == 4 * Pow2(n);
    assert Pow2(n + 4) == 2 * Pow2(n + 3) == 4 * Pow2(n + 2);
  }

  lemma {:induction false} Pow2Plus8(n: nat)
    ensures Pow2(n + 8) == 256 * Pow2(n)
  {
    Pow2Plus4(n);
    Pow2Plus4(n + 4);
  }

  lemma Pow2Zero()
    ensures Pow2(0) == 1
  {
  }

  lemma {:induction false} Pow2Word(k: nat)
    requires k <= 32
    ensures Pow2(k) <= TWO_32 && (k < 32 ==> Pow2(k) < TWO_32)
  {
    hide Pow2;
    Pow2Zero();
    Pow2Mono(k, 32);
    Pow2Plus8(0);
    Pow2Plus8(8);
    Pow2Plus8(16);
    Pow2Plus8(24);
  }

  // ----- the C operators -----

  /** Bitwise and of two unsigned values. */
  function And(a: nat, b: nat): nat
  {
    if a == 0 || b == 0 then 0 else 2 * And(a / 2, b / 2) + (if a % 2 == 1 && b % 2 == 1 then 1 else 0)
  }

  /** Bitwise or of two unsigned values. */
  function Or(a: nat, b: nat): nat
    decreases a + b
  {
    if a == 0 then b else if b == 0 then a
    else 2 * Or(a / 2, b / 2) + (if a % 2 == 1 || b % 2 == 1 then 1 else 0)
  }

  /** Left shift of a 32-bit unsigned value: bits above the top one are lost. */
  function Shl32(v: nat, k: nat): u32
  {
    Shl(v, k) % TWO_32
  }

  /** Conversion to an unsigned 8-bit value, of a possibly negative intermediate result. */
  function U8(v: int): byte
  {
    v % 256
  }

  function U32(v: int): u32
  {
    v % TWO_32
  }

  /** Masking with k one bits keeps the low k bits. */
  lemma {:induction false} AndLowMask(a: nat, k: nat)
    ensures And(a, Pow2(k) - 1) == Low(a, k)
  {
    if k > 0 {
      AndLowMask(a / 2, k - 1);
      assert (2 * Pow2(k - 1) - 1) / 2 == Pow2(k - 1) - 1;
      if a == 0 || k == 1 {
        LowSmall(0, k);
        assert And(a / 2, 0) == 0;
      }
    }
  }

  lemma {:induction false} AndEven(a: nat, b: nat)
    ensures And(a, 2 * b) == 2 * And(a / 2, b)
  {
    assert And(0, b) == 0;
  }

  /** Masking with the ones from bit k up to (not including) bit w keeps exactly those bits. */
  lemma {:induction false} AndMiddleMask(a: nat, k: nat, w: nat)
    requires k <= w
    ensures Pow2(k) <= Pow2(w) && And(a, Pow2(w) - Pow2(k)) == Low(a, w) - Low(a, k)
  {
    hide And;
    Pow2Mono(k, w);
    if k == 0 {
      AndLowMask(a, w);
    } else {
      AndMiddleMask(a / 2, k - 1, w - 1);
      AndEven(a, Pow2(w - 1) - Pow2(k - 1));
    }
  }

  /** Setting one bit that is clear, with only clear bits below it, adds its weight. */
  lemma {:induction false} OrSetBit(a: nat, bit: nat, k: nat)
    requires bit <= 1 && Low(a, k + 1) == 0
    ensures Or(a, Shl(bit, k)) == a + Shl(bit, k)
  {
    ShlOne(k);
    if bit == 1 && a > 0 {
      assert Low(a / 2, k) == 0;
      if k > 0 {
        OrSetBit(a / 2, 1, k - 1);
        assert Or(a, Pow2(k)) == 2 * Or(a / 2, Pow2(k - 1));
      } else {
        assert Or(a, 1) == 2 * Or(a / 2, 0) + 1;
      }
    }
  }

  // ----- bit sequences -----

  /** The low n bits of v, most significant first. */
  function ToBits(v: nat, n: nat): (bits: seq<bool>)
    ensures |bits| == n
  {
    if n == 0 then [] else ToBits(v / 2, n - 1) + [v % 2 == 1]
  }

  function ToNat(bits: seq<bool>): (v: nat)
    ensures v < Pow2(|bits|)
  {
    if bits == [] then 0
    else 2 * ToNat(bits[..|bits| - 1]) + (if bits[|bits| - 1] then 1 else 0)
  }

  lemma {:induction false} ToBitsToNat(bits: seq<bool>)
    ensures ToBits(ToNat(bits), |bits|) == bits
  {
    if bits != [] {
      ToBitsToNat(bits[..|bits| - 1]);
    }
  }

  lemma {:induction false} ToNatToBits(v: nat, n: nat)
    ensures ToNat(ToBits(v, n)) == Low(v, n)
  {
    if n > 0 {
      ToNatToBits(v / 2, n - 1);
      assert ToBits(v, n)[..n - 1] == ToBits(v / 2, n - 1);
    }
  }

  /** Concatenating digit strings is adding the values at their weights. */
  lemma {:induction false} ToBitsConcat(hi: nat, n: nat, lo: nat, m: nat)
    requires lo < Pow2(m)
    ensures ToBits(Shl(hi, m) + lo, n + m) == ToBits(hi, n) + ToBits(lo, m)
  {
    if m > 0 {
      ToBitsConcat(hi, n, lo / 2, m - 1);
      assert (Shl(hi, m) + lo) / 2 == Shl(hi, m - 1) + lo / 2;
      assert ToBits(hi, n) + ToBits(lo, m) == (ToBits(hi, n) + ToBits(lo / 2, m - 1)) + [lo % 2 == 1];
    } else {
      assert ToBits(hi, n) + ToBits(lo, 0) == ToBits(hi, n);
    }
  }

  /** Splitting the n+m low bits of a value at bit m. */
  lemma {:induction false} ToBitsSplit(v: nat, n: nat, m: nat)
    ensures ToBits(v, n + m) == ToBits(Shr(v, m), n) + ToBits(Low(v, m), m)
  {
    Parts(v, m);
    ToBitsConcat(Shr(v, m), n, Low(v, m), m);
  }

  /** Only the value modulo 2^n reaches the n low bits. */
  lemma {:induction false} ToBitsLow(v: nat, n: nat)
    ensures ToBits(Low(v, n), n) == ToBits(v, n)
  {
    ToBitsSplit(v, 0, n);
  }

  lemma {:induction false} ToBitsZero(n: nat)
    ensures ToBits(0, n) == seq(n, _ => false)
  {
    if n > 0 {
      ToBitsZero(n - 1);
    }
  }

  lemma {:induction false} ToNatConcat(a: seq<bool>, b: seq<bool>)
    ensures ToNat(a + b) == Shl(ToNat(a), |b|) + ToNat(b)
  {
    if b == [] {
      assert a + b == a;
    } else {
      var n := |b| - 1;
      ToNatConcat(a, b[..n]);
      assert (a + b)[..|a + b| - 1] == a + b[..n];
    }
  }

  // ----- byte buffers as bit sequences -----

  function BitsOf(s: seq<byte>): (bits: seq<bool>)
    ensures |bits| == 8 * |s|
  {
    if s == [] then [] else BitsOf(s[..|s| - 1]) + ToBits(s[|s| - 1], 8)
  }

  lemma {:induction false} BitsOfConcat(a: seq<byte>, b: seq<byte>)
    ensures BitsOf(a + b) == BitsOf(a) + BitsOf(b)
  {
    hide ToBits;
    if b == [] {
      assert a + b == a;
    } else {
      var b', c := b[..|b| - 1], ToBits(b[|b| - 1], 8);
      BitsOfConcat(a, b');
      assert (a + b)[..|a + b| - 1] == a + b';
      assert BitsOf(a + b) == BitsOf(a + b') + c;
      assert BitsOf(a) + BitsOf(b') + c == BitsOf(a) + (BitsOf(b') + c);
    }
  }

  lemma BitsOfByte(b: byte)
    ensures BitsOf([b]) == ToBits(b, 8)
  {
    assert [b][..0] == [];
    assert BitsOf([b]) == [] + ToBits(b, 8);
  }

  /** The bits of a buffer around one of its bytes. */
  lemma {:induction false} BitsOfAround(s: seq<byte>, i: nat)
    requires i < |s|
    ensures BitsOf(s) == BitsOf(s[..i]) + ToBits(s[i], 8) + BitsOf(s[i + 1..])
  {
    assert s == s[..i] + [s[i]] + s[i + 1..];
    BitsOfConcat(s[..i] + [s[i]], s[i + 1..]);
    BitsOfConcat(s[..i], [s[i]]);
    BitsOfByte(s[i]);
  }

  lemma {:induction false} ByteBits(b: byte)
    ensures ToNat(ToBits(b, 8)) == b
  {
    assert Pow2(8) == 256;
    ToNatToBits(b, 8);
    LowSmall(b, 8);
  }

  /** Buffers with the same bits are the same buffer. */
  lemma {:induction false} BitsOfInjective(a: seq<byte>, b: seq<byte>)
    requires BitsOf(a) == BitsOf(b)
    ensures a == b
  {
    if a != [] {
      var n := |a| - 1;
      assert BitsOf(a)[..8 * n] == BitsOf(a[..n]) && BitsOf(a)[8 * n..] == ToBits(a[n], 8);
      assert BitsOf(b)[..8 * n] == BitsOf(b[..n]) && BitsOf(b)[8 * n..] == ToBits(b[n], 8);
      BitsOfInjective(a[..n], b[..n]);
      ByteBits(a[n]);
      ByteBits(b[n]);
      assert a == a[..n] + [a[n]] && b == b[..n] + [b[n]];
    }
  }
}
