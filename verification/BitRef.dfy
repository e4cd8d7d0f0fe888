/** The bit cursor of the packed-encoding library: reading and writing fields of up to 32 bits
    at any bit offset of a byte buffer. */
module BitCursor {
  import opened Bits

  datatype Code = Success | EncodeFail | DecodeFail

  // ----- what an encoder emits, on values -----

  /** The state of a cursor as a value: the whole buffer, the bit position and the byte limit. */
  datatype Snap = Snap(buf: seq<byte>, pos: nat, max: nat)
  {
    ghost predicate Valid() {
      max <= |buf| && pos <= 8 * max
    }

    ghost function Cap(): nat {
      8 * max
    }

    /** All the bits the cursor may touch. */
    ghost function Bits(): seq<bool>
      requires Valid()
    {
      BitsOf(buf[..max])
    }

    ghost function Written(): seq<bool>
      requires Valid()
    {
      Bits()[..pos]
    }

    /** The first byte the cursor has not touched yet. */
    ghost function Used(): nat {
      (pos + 7) / 8
    }
  }

  /** What an encoder tries to write, and whether it accepts its arguments. */
  datatype Enc = Enc(bits: seq<bool>, ok: bool)

  function Clip(w: seq<bool>, cap: nat): (r: seq<bool>)
    ensures |r| <= cap && r <= w
    ensures |w| <= cap ==> r == w
  {
    if |w| <= cap then w else w[..cap]
  }

  /** Encoders in sequence: the second runs only when the first was accepted. */
  function Then(a: Enc, b: Enc): Enc
  {
    if a.ok then Enc(a.bits + b.bits, b.ok) else a
  }

  ghost predicate Fits(s: Snap, e: Enc) {
    s.pos + |e.bits| <= s.Cap()
  }

  /** The cursor went from s to t by appending the bits of e, as far as there was room;
      nothing before the old position and no byte after the new one has changed. */
  ghost predicate Appends(s: Snap, t: Snap, e: Enc) {
    && s.Valid() && t.Valid()
    && t.max == s.max && |t.buf| == |s.buf|
    && t.Written() == Clip(s.Written() + e.bits, s.Cap())
    && t.buf[t.Used()..] == s.buf[t.Used()..]
  }

  /** As Appends, and the outcome is success exactly when e was acceptable and there was room. */
  ghost predicate Emits(s: Snap, t: Snap, e: Enc, code: Code) {
    && Appends(s, t, e)
    && (code == Success <==> e.ok && Fits(s, e))
  }

  lemma AppendsPos(s: Snap, t: Snap, e: Enc)
    requires Appends(s, t, e)
    ensures t.pos == if Fits(s, e) then s.pos + |e.bits| else s.Cap()
  {
    assert |t.Written()| == t.pos && |s.Written()| == s.pos;
  }

  lemma SameTail(a: seq<byte>, b: seq<byte>, i: nat, j: nat)
    requires i <= j <= |a| == |b| && a[i..] == b[i..]
    ensures a[j..] == b[j..]
  {
    assert a[j..] == a[i..][j - i..];
    assert b[j..] == b[i..][j - i..];
  }

  lemma AppendsThen(s: Snap, t: Snap, u: Snap, a: Enc, b: Enc)
    requires Appends(s, t, a) && a.ok
    requires Appends(t, u, b)
    ensures Appends(s, u, Then(a, b))
  {
    AppendsPos(s, t, a);
    AppendsPos(t, u, b);
    var w := s.Written();
    assert (w + a.bits) + b.bits == w + (a.bits + b.bits);
    assert u.Written() == Clip(w + (a.bits + b.bits), s.Cap());
    SameTail(s.buf, t.buf, t.Used(), u.Used());
  }

  lemma EmitsThen(s: Snap, t: Snap, u: Snap, a: Enc, b: Enc, code: Code)
    requires Emits(s, t, a, Success)
    requires Emits(t, u, b, code)
    ensures Emits(s, u, Then(a, b), code)
  {
    AppendsThen(s, t, u, a, b);
    AppendsPos(s, t, a);
  }

  /** An encoder that was refused leaves the outcome of the whole sequence. */
  lemma EmitsRefused(s: Snap, t: Snap, a: Enc, b: Enc, code: Code)
    requires Emits(s, t, a, code) && code != Success
    ensures Emits(s, t, Then(a, b), EncodeFail)
  {
    if a.ok {
      assert !Fits(s, a);
      var w := s.Written();
      assert (w + a.bits) + b.bits == w + (a.bits + b.bits);
      assert Clip(w + (a.bits + b.bits), s.Cap()) == Clip(w + a.bits, s.Cap());
    }
  }

  lemma EmitsNothing(s: Snap)
    requires s.Valid()
    ensures Emits(s, s, Enc([], true), Success)
  {
    assert s.Written() + [] == s.Written();
  }

  // ----- reading, on values -----

  datatype Dec<+T> = Ok(val: T, pos: nat) | Fail
  {
    predicate IsFailure() { Fail? }

    function PropagateFailure<U>(): Dec<U>
      requires Fail?
    {
      Fail
    }

    function Extract(): (T, nat)
      requires Ok?
    {
      (val, pos)
    }
  }

  /** An n-bit field of a bit sequence, as an unsigned number. */
  function DecBits(b: seq<bool>, pos: nat, n: nat): (d: Dec<nat>)
    ensures d.Ok? ==> d.pos == pos + n
  {
    if pos + n <= |b| then Ok(ToNat(b[pos..pos + n]), pos + n) else Fail
  }

  /** The bits at a position of a longer bit sequence. */
  ghost predicate At(b: seq<bool>, pos: nat, bits: seq<bool>) {
    pos + |bits| <= |b| && b[pos..pos + |bits|] == bits
  }

  lemma AtThen(b: seq<bool>, pos: nat, x: seq<bool>, y: seq<bool>)
    requires At(b, pos, x + y)
    ensures At(b, pos, x) && At(b, pos + |x|, y)
  {
    assert b[pos..pos + |x|] == (x + y)[..|x|] == x;
    assert b[pos + |x|..pos + |x| + |y|] == (x + y)[|x|..] == y;
  }

  /** A field reads back the low bits of the value that was written there. */
  lemma DecAt(b: seq<bool>, pos: nat, v: nat, n: nat)
    requires At(b, pos, ToBits(v, n))
    ensures DecBits(b, pos, n) == Ok(Low(v, n), pos + n)
    ensures v < Pow2(n) ==> DecBits(b, pos, n) == Ok(v, pos + n)
  {
    hide ToBits, ToNat, Low, Pow2;
    ToNatToBits(v, n);
    if v < Pow2(n) {
      LowSmall(v, n);
    }
  }

  /** What an encoder wrote is found at its old position, also after later encoders. */
  lemma EmitsAt(s: Snap, t: Snap, e: Enc)
    requires Appends(s, t, e) && Fits(s, e)
    ensures At(t.Bits(), s.pos, e.bits) && t.pos == s.pos + |e.bits|
  {
    hide BitsOf;
    AppendsPos(s, t, e);
    var w := s.Written();
    assert t.Written() == w + e.bits;
    assert t.Bits()[s.pos..t.pos] == t.Written()[|w|..] == e.bits;
  }

  // ----- the masks -----

  /** The mask that keeps the first o bits of a byte. */
  function KeepMask(o: nat): byte
    requires o < 8
  {
    U8(255 - U8(Shl32(1, 8 - o) - 1))
  }

  /** The mask of the n bits after the first o of a byte. */
  function FieldMask(o: nat, n: nat): byte
    requires o + n < 8
  {
    U8(U8(Shl32(1, 8 - o)) - U8(Shl32(1, 8 - o - n)))
  }

  /** The mask of everything after the first o bits of a byte. */
  function RestMask(o: nat): byte
    requires o < 8
  {
    U8(Shl32(1, 8 - o) - 1)
  }

  lemma {:induction false} Shl32One(k: nat)
    requires k <= 8
    ensures Shl32(1, k) == Pow2(k) <= 256
  {
    ShlOne(k);
    Pow2Byte(k);
  }

  lemma {:induction false} MasksMean(o: nat, n: nat)
    requires o + n < 8
    ensures KeepMask(o) == 256 - Pow2(8 - o)
    ensures FieldMask(o, n) == Pow2(8 - o) - Pow2(8 - o - n)
    ensures RestMask(o) == Pow2(8 - o) - 1
  {
    hide Pow2, Shl32, U8;
    var a, b := Pow2(8 - o), Pow2(8 - o - n);
    Shl32One(8 - o);
    Shl32One(8 - o - n);
    Pow2Mono(8 - o - n, 8 - o);
    MaskDifference(a, b);
    assert KeepMask(o) == U8(255 - U8(a - 1));
    assert FieldMask(o, n) == U8(U8(a) - U8(b));
    assert RestMask(o) == U8(a - 1);
  }

  /** The difference of two powers up to 2^8, taken on 8-bit values that wrap around. */
  lemma MaskDifference(a: nat, b: nat)
    requires 1 <= b <= a <= 256
    ensures U8(255 - U8(a - 1)) == 256 - a && U8(a - 1) == a - 1
    ensures U8(U8(a) - U8(b)) == a - b
  {
  }

  /** The byte that pack stores: the first o bits kept, then the new low bits. */
  lemma {:induction false} StoredByte(b: byte, o: nat, mask: nat, bit: nat)
    requires o < 8 && mask == 256 - Pow2(8 - o) && bit < Pow2(8 - o)
    ensures And(b, mask) + bit < 256
    ensures ToBits(And(b, mask) + bit, 8) == ToBits(b, 8)[..o] + ToBits(bit, 8 - o)
  {
    var k := 8 - o;
    KeptBits(b, o, k, mask);
    ToBitsConcat(Shr(b, k), o, bit, k);
    ToBitsSplit(b, o, k);
  }

  lemma {:induction false} KeptBits(b: byte, o: nat, k: nat, mask: nat)
    requires o < 8 && k == 8 - o && mask == 256 - Pow2(k)
    ensures And(b, mask) == Shl(Shr(b, k), k)
    ensures Shl(Shr(b, k), k) + Pow2(k) <= 256
  {
    assert Pow2(8) == 256;
    AndMiddleMask(b, k, 8);
    LowSmall(b, 8);
    Parts(b, k);
    ShrBound(b, o, k);
    ShlBound(Shr(b, k), o, k);
  }

  /** A field of n bits followed by zeros up to the end of the byte. */
  lemma {:induction false} ShiftedField(v: nat, n: nat, o: nat)
    requires o + n < 8 && v < Pow2(n)
    ensures U8(Shl32(v, 8 - o - n)) < Pow2(8 - o)
    ensures ToBits(U8(Shl32(v, 8 - o - n)), 8 - o) == ToBits(v, n) + ToBits(0, 8 - o - n)
  {
    var k := 8 - o - n;
    hide Pow2, Shl, ToBits;
    var f := Shl(v, k);
    ShlBound(v, n, k);
    Pow2Byte(8 - o);
    assert U8(Shl32(v, k)) == f;
    ToBitsConcat(v, n, 0, k);
  }

  /** Masking and shifting a byte yields the value of n bits after the first o. */
  lemma {:induction false} FieldOfByte(b: byte, o: nat, n: nat)
    requires o + n < 8
    ensures Shr(And(b, FieldMask(o, n)), 8 - o - n) == ToNat(ToBits(b, 8)[o..o + n])
  {
    hide And, Pow2, Low, Shr, ToNat, ToBits, FieldMask;
    MasksMean(o, n);
    AndShift(b, FieldMask(o, n), n, 8 - o - n);
    MiddleBits(b, o, n);
  }

  lemma {:induction false} AndShift(v: nat, mask: nat, n: nat, k: nat)
    requires mask == Pow2(n + k) - Pow2(k)
    ensures Shr(And(v, mask), k) == Low(Shr(v, k), n)
  {
    hide *;
    AndMiddleMask(v, k, n + k);
    MiddleDigits(v, n, k);
  }

  lemma {:induction false} MiddleDigits(v: nat, n: nat, k: nat)
    ensures Low(v, n + k) - Low(v, k) == Shl(Low(Shr(v, k), n), k)
    ensures Shr(Shl(Low(Shr(v, k), n), k), k) == Low(Shr(v, k), n)
  {
    ShlLow(Low(Shr(v, k), n), 0, k);
    LowSplit(v, n, k);
  }

  lemma {:induction false} LowSplit(v: nat, n: nat, k: nat)
    ensures Low(v, n + k) == Shl(Low(Shr(v, k), n), k) + Low(v, k)
  {
    if k > 0 {
      LowSplit(v / 2, n, k - 1);
    }
  }

  lemma {:induction false} MiddleBits(v: nat, o: nat, n: nat)
    requires o + n <= 8
    ensures ToNat(ToBits(v, 8)[o..o + n]) == Low(Shr(v, 8 - o - n), n)
  {
    var k := 8 - o - n;
    var w := Shr(v, k);
    ToBitsSplit(v, o + n, k);
    ToBitsSplit(w, o, n);
    assert ToBits(v, 8)[o..o + n] == ToBits(Low(w, n), n);
    ToNatToBits(Low(w, n), n);
    LowLow(w, n, n);
  }

  /** Masking a byte yields the value of everything after the first o bits. */
  lemma {:induction false} RestOfByte(b: byte, o: nat)
    requires o < 8
    ensures And(b, RestMask(o)) == ToNat(ToBits(b, 8)[o..8])
  {
    hide Pow2, And, Low, RestMask, ToBits, ToNat;
    MasksMean(o, 0);
    AndLowMask(b, 8 - o);
    MiddleBits(b, o, 8 - o);
    assert Shr(b, 0) == b;
  }

  /** Storing one byte extends the bits written so far, when it keeps the first o bits of that byte. */
  lemma StoreExtends(s: Snap, nb: byte, field: seq<bool>, rest: seq<bool>)
    requires s.Valid() && s.pos < s.Cap()
    requires ToBits(nb, 8) == ToBits(s.buf[s.pos / 8], 8)[..s.pos % 8] + field + rest
    requires |field| > 0
    ensures Appends(s, Snap(s.buf[s.pos / 8 := nb], s.pos + |field|, s.max), Enc(field, true))
  {
    hide BitsOf, ToBits;
    var i := s.pos / 8;
    var t := Snap(s.buf[i := nb], s.pos + |field|, s.max);
    StoreBits(s.buf[..s.max], i, s.pos % 8, nb, field, rest);
    assert t.buf[..t.max] == s.buf[..s.max][i := nb];
    assert t.buf[t.Used()..] == s.buf[t.Used()..];
  }

  lemma {:induction false} StoreBits(a: seq<byte>, i: nat, o: nat, nb: byte, field: seq<bool>, rest: seq<bool>)
    requires i < |a| && o < 8
    requires ToBits(nb, 8) == ToBits(a[i], 8)[..o] + field + rest
    ensures BitsOf(a[i := nb])[..8 * i + o + |field|] == BitsOf(a)[..8 * i + o] + field
  {
    var b := a[i := nb];
    var x, y := ToBits(a[i], 8), ToBits(nb, 8);
    BitsBefore(a, i, o);
    BitsBefore(b, i, o + |field|);
    assert b[..i] == a[..i];
    assert y[..o + |field|] == x[..o] + field;
    SeqAssoc(BitsOf(a[..i]), x[..o], field);
  }

  lemma SeqAssoc(a: seq<bool>, b: seq<bool>, c: seq<bool>)
    ensures a + (b + c) == a + b + c
  {
  }

  /** The bits of a buffer up to bit o of byte i. */
  lemma {:induction false} BitsBefore(a: seq<byte>, i: nat, o: nat)
    requires i < |a| && o <= 8
    ensures BitsOf(a)[..8 * i + o] == BitsOf(a[..i]) + ToBits(a[i], 8)[..o]
  {
    BitsOfAround(a, i);
    TakeInto(BitsOf(a[..i]), ToBits(a[i], 8), BitsOf(a[i + 1..]), o);
  }

  lemma TakeInto(h: seq<bool>, x: seq<bool>, t: seq<bool>, k: nat)
    requires k <= |x|
    ensures (h + x + t)[..|h| + k] == h + x[..k]
  {
  }

  /** The bits of a buffer within one of its bytes. */
  lemma {:induction false} BitsWithin(a: seq<byte>, i: nat, o: nat, k: nat)
    requires i < |a| && o + k <= 8
    ensures BitsOf(a)[8 * i + o..8 * i + o + k] == ToBits(a[i], 8)[o..o + k]
  {
    hide ToBits, BitsOf;
    BitsOfAround(a, i);
    SliceInto(BitsOf(a[..i]), ToBits(a[i], 8), BitsOf(a[i + 1..]), o, k);
  }

  lemma SliceInto(h: seq<bool>, x: seq<bool>, t: seq<bool>, o: nat, k: nat)
    requires o + k <= |x|
    ensures (h + x + t)[|h| + o..|h| + o + k] == x[o..o + k]
  {
  }

  // ----- one round of the packing loop -----

  lemma {:induction false} MaskedValue(val: nat, m: nat)
    requires m <= 31
    ensures And(val, U32(Shl32(1, m) - 1)) == Low(val, m) < TWO_32
    ensures Low(Low(val, m), m) == Low(val, m)
  {
    hide Pow2, And, Low, Shl;
    ShlOne(m);
    Pow2Word(m);
    AndLowMask(val, m);
    LowLow(val, m, m);
  }

  /** After n - m of its bits are out, the last m bits of a value are what remains. */
  lemma {:induction false} RemainingBits(v: nat, n: nat, val: nat, m: nat, k: nat)
    requires k <= m <= n && Low(val, m) == Low(v, m)
    ensures ToBits(Low(val, m), m)[..k] == ToBits(v, n)[n - m..n - m + k]
    ensures Low(Low(val, m), m - k) == Low(v, m - k)
  {
    ToBitsSplit(v, n - m, m);
    LowLow(v, m, m - k);
  }

  lemma AppendsPart(s: Snap, t: Snap, u: Snap, bits: seq<bool>, done: nat, field: seq<bool>)
    requires done + |field| <= |bits| && field == bits[done..done + |field|]
    requires Appends(s, t, Enc(bits[..done], true)) && Appends(t, u, Enc(field, true))
    ensures Appends(s, u, Enc(bits[..done + |field|], true))
  {
    AppendsThen(s, t, u, Enc(bits[..done], true), Enc(field, true));
    assert bits[..done] + field == bits[..done + |field|];
  }

  lemma {:induction false} StoreRound(t: Snap, o: nat, mask: nat, bit: nat, field: seq<bool>, rest: seq<bool>)
    requires t.Valid() && t.pos < t.Cap() && o == t.pos % 8 && mask == 256 - Pow2(8 - o)
    requires bit < Pow2(8 - o) && ToBits(bit, 8 - o) == field + rest && field != []
    ensures And(t.buf[t.pos / 8], mask) + bit < 256
    ensures var nb := And(t.buf[t.pos / 8], mask) + bit;
            Appends(t, Snap(t.buf[t.pos / 8 := nb], t.pos + |field|, t.max), Enc(field, true))
  {
    var b := t.buf[t.pos / 8];
    StoredByte(b, o, mask, bit);
    SeqAssoc(ToBits(b, 8)[..o], field, rest);
    StoreExtends(t, And(b, mask) + bit, field, rest);
  }

  /** The top k bits of an m-bit value. */
  lemma {:induction false} TopBits(val: nat, m: nat, k: nat)
    requires k <= m && k <= 8 && val < Pow2(m)
    ensures U8(Shr(val, m - k)) < Pow2(k)
    ensures ToBits(U8(Shr(val, m - k)), k) == ToBits(val, m)[..k]
  {
    hide Pow2, Shr, ToBits, Low;
    ShrBound(val, k, m - k);
    Pow2Byte(k);
    ToBitsSplit(val, k, m - k);
  }

  /** The invariant of the packing loop: all but the last m bits of value are out,
      and the last m bits of val are what remains. */
  ghost predicate Packing(s: Snap, t: Snap, value: nat, n: nat, val: nat, m: nat) {
    && m <= n
    && t.pos == s.pos + n - m
    && Appends(s, t, Enc(ToBits(value, n)[..n - m], true))
    && Low(val, m) == Low(value, m)
  }

  lemma PackStart(s: Snap, value: nat, n: nat)
    requires s.Valid()
    ensures Packing(s, s, value, n, value, n)
  {
    EmitsNothing(s);
  }

  lemma PackEnd(s: Snap, t: Snap, value: nat, n: nat, val: nat, m: nat)
    requires s.Valid() && t.Valid() && Packing(s, t, value, n, val, m)
    ensures m == 0 ==> Emits(s, t, Enc(ToBits(value, n), true), Success)
    ensures m > 0 && t.pos == t.Cap() ==> Emits(s, t, Enc(ToBits(value, n), true), EncodeFail)
  {
    hide ToBits, BitsOf, Low;
    var bits, w := ToBits(value, n), s.Written();
    AppendsPos(s, t, Enc(bits[..n - m], true));
    assert m == 0 ==> bits[..n - m] == bits;
    if m > 0 && t.pos == t.Cap() {
      assert (w + bits)[..s.Cap()] == w + bits[..n - m];
    }
  }

  /** The round of the packing loop that stays within a byte keeps the invariant. */
  lemma {:induction false} RoundPart(s: Snap, t: Snap, ptr: nat, o: nat, value: nat, n: nat, val: nat, m: nat,
                                     v: nat, nb: byte)
    requires t.Valid() && t.pos == 8 * ptr + o && ptr < t.max && 0 < m < 8 - o && n <= 31
    requires Packing(s, t, value, n, val, m)
    requires v == And(val, U32(Shl32(1, m) - 1))
    requires nb == U8(And(t.buf[ptr], KeepMask(o)) + U8(Shl32(v, 8 - o - m)))
    ensures Packing(s, Snap(t.buf[ptr := nb], t.pos + m, t.max), value, n, v, 0)
  {
    hide Appends, ToBits, Pow2, And, KeepMask, Shl32, U8;
    MaskedValue(val, m);
    MasksMean(o, 0);
    RemainingBits(value, n, val, m, m);
    PackPart(s, t, ToBits(value, n), n - m, v, m, KeepMask(o));
    assert Low(v, 0) == Low(value, 0) == 0;
  }

  /** The round of the packing loop that fills a byte keeps the invariant. */
  lemma {:induction false} RoundWhole(s: Snap, t: Snap, ptr: nat, o: nat, value: nat, n: nat, val: nat, m: nat,
                                      v: nat, nb: byte)
    requires t.Valid() && t.pos == 8 * ptr + o && ptr < t.max && 0 < 8 - o <= m <= 31 && n <= 31 && o < 8
    requires Packing(s, t, value, n, val, m)
    requires v == And(val, U32(Shl32(1, m) - 1))
    requires nb == U8(And(t.buf[ptr], KeepMask(o)) + U8(Shr(v, m - 8 + o)))
    ensures Packing(s, Snap(t.buf[ptr := nb], t.pos + 8 - o, t.max), value, n, v, m - 8 + o)
  {
    hide Appends, ToBits, Pow2, And, KeepMask, Shr, U8, Low;
    MaskedValue(val, m);
    MasksMean(o, 0);
    RemainingBits(value, n, val, m, 8 - o);
    PackWhole(s, t, ToBits(value, n), n - m, v, m, KeepMask(o));
  }

  lemma {:induction false} PackPart(s: Snap, t: Snap, bits: seq<bool>, done: nat, v: nat, m: nat, mask: nat)
    requires done + m <= |bits| && bits[done..done + m] == ToBits(v, m)[..m] && v < Pow2(m)
    requires Appends(s, t, Enc(bits[..done], true)) && t.pos < t.Cap()
    requires t.Valid() && 0 < m < 8 - t.pos % 8 && mask == 256 - Pow2(8 - t.pos % 8)
    ensures var nb := U8(And(t.buf[t.pos / 8], mask) + U8(Shl32(v, 8 - t.pos % 8 - m)));
            Appends(s, Snap(t.buf[t.pos / 8 := nb], t.pos + m, t.max), Enc(bits[..done + m], true))
  {
    hide Appends, ToBits, Pow2, Shl, And;
    var o := t.pos % 8;
    var bit := U8(Shl32(v, 8 - o - m));
    ShiftedField(v, m, o);
    StoreRound(t, o, mask, bit, ToBits(v, m), ToBits(0, 8 - o - m));
    AppendsPart(s, t, Snap(t.buf[t.pos / 8 := And(t.buf[t.pos / 8], mask) + bit], t.pos + m, t.max),
                bits, done, ToBits(v, m));
  }

  lemma {:induction false} PackWhole(s: Snap, t: Snap, bits: seq<bool>, done: nat, v: nat, m: nat, mask: nat)
    requires 0 < 8 - t.pos % 8 <= m && v < Pow2(m)
    requires done + 8 - t.pos % 8 <= |bits|
    requires bits[done..done + 8 - t.pos % 8] == ToBits(v, m)[..8 - t.pos % 8]
    requires Appends(s, t, Enc(bits[..done], true)) && t.Valid() && t.pos < t.Cap()
    requires mask == 256 - Pow2(8 - t.pos % 8)
    ensures var nb := U8(And(t.buf[t.pos / 8], mask) + U8(Shr(v, m - 8 + t.pos % 8)));
            Appends(s, Snap(t.buf[t.pos / 8 := nb], t.pos + 8 - t.pos % 8, t.max),
                    Enc(bits[..done + 8 - t.pos % 8], true))
  {
    hide Appends, ToBits, Pow2, Shr, And;
    var k := 8 - t.pos % 8;
    var bit := U8(Shr(v, m - k));
    TopBits(v, m, k);
    var field := ToBits(bit, k);
    assert field + [] == field;
    StoreRound(t, 8 - k, mask, bit, field, []);
    AppendsPart(s, t, Snap(t.buf[t.pos / 8 := And(t.buf[t.pos / 8], mask) + bit], t.pos + k, t.max),
                bits, done, field);
  }

  // ----- one round of the unpacking loop -----

  /** The invariant of the unpacking loop: the bits from p0 to p are read, m are left,
      and val holds the bits read at their final weight (for fields of up to 32 bits). */
  ghost predicate Unpacking(b: seq<bool>, p0: nat, n: nat, p: nat, val: nat, m: nat) {
    && m <= n
    && p == p0 + n - m <= |b|
    && (n <= 32 ==> val == Shl(ToNat(b[p0..p]), m))
  }

  /** The round of the unpacking loop that ends within a byte. */
  lemma {:induction false} ReadPart(a: seq<byte>, p0: nat, n: nat, val: nat, m: nat, ptr: nat, o: nat)
    requires ptr < |a| && 0 < m < 8 - o && Unpacking(BitsOf(a), p0, n, 8 * ptr + o, val, m)
    ensures Unpacking(BitsOf(a), p0, n, 8 * ptr + o + m, U32(val + Shr(And(a[ptr], FieldMask(o, m)), 8 - o - m)), 0)
  {
    hide And, FieldMask, Shr, BitsOf, ToNat, Pow2, ToBits;
    var b := BitsOf(a);
    BitsWithin(a, ptr, o, m);
    FieldOfByte(a[ptr], o, m);
    if n <= 32 {
      Accumulate(b[p0..8 * ptr + o], b[8 * ptr + o..8 * ptr + o + m], n, m);
      assert b[p0..8 * ptr + o] + b[8 * ptr + o..8 * ptr + o + m] == b[p0..8 * ptr + o + m];
    }
  }

  /** The round of the unpacking loop that exhausts a byte. */
  lemma {:induction false} ReadWhole(a: seq<byte>, p0: nat, n: nat, val: nat, m: nat, ptr: nat, o: nat)
    requires ptr < |a| && o < 8 && 8 - o <= m && Unpacking(BitsOf(a), p0, n, 8 * ptr + o, val, m)
    ensures Unpacking(BitsOf(a), p0, n, 8 * ptr + 8, U32(val + Shl32(And(a[ptr], RestMask(o)), m - 8 + o)), m - 8 + o)
  {
    hide And, RestMask, Shl, BitsOf, ToNat, Pow2, ToBits;
    var b := BitsOf(a);
    BitsWithin(a, ptr, o, 8 - o);
    RestOfByte(a[ptr], o);
    if n <= 32 {
      Accumulate(b[p0..8 * ptr + o], b[8 * ptr + o..8 * ptr + 8], n, m);
      assert b[p0..8 * ptr + o] + b[8 * ptr + o..8 * ptr + 8] == b[p0..8 * ptr + 8];
    }
  }

  /** Adding a piece at its weight to the bits read so far; the sum does not wrap around. */
  lemma {:induction false} Accumulate(read: seq<bool>, piece: seq<bool>, n: nat, m: nat)
    requires n <= 32 && |piece| <= m && |read| + m == n
    ensures Shl(ToNat(read), m) + Shl(ToNat(piece), m - |piece|) == Shl(ToNat(read + piece), m - |piece|) < TWO_32
    ensures |piece| == m ==> Shl(ToNat(piece), 0) == ToNat(piece)
  {
    hide ToNat, Pow2;
    var k := |piece|;
    ToNatConcat(read, piece);
    ShlAdd(ToNat(read), k, m - k);
    ShlSum(Shl(ToNat(read), k), ToNat(piece), m - k);
    ShlBound(ToNat(read + piece), |read| + k, m - k);
    Pow2Word(n);
  }

  lemma {:induction false} ReadStart(b: seq<bool>, p0: nat, n: nat)
    requires p0 <= |b|
    ensures Unpacking(b, p0, n, p0, 0, n)
  {
    ShlOne(n);
  }

  lemma ReadEnd(b: seq<bool>, p0: nat, n: nat, p: nat, val: nat)
    requires Unpacking(b, p0, n, p, val, 0)
    ensures DecBits(b, p0, n).Ok? && (n <= 32 ==> val == DecBits(b, p0, n).val)
  {
    hide ToNat;
  }

  // ----- alignment -----

  function Zeros(n: nat): seq<bool>
  {
    seq(n, _ => false)
  }

  /** The number of bits from a position to the next byte boundary. */
  function Pad(pos: nat): nat
  {
    (8 - pos % 8) % 8
  }

  lemma PadWithin(ptr: nat, o: nat)
    requires o < 8
    ensures Pad(8 * ptr + o) == if o == 0 then 0 else 8 - o
  {
  }

  lemma {:induction false} ClearedByte(s: Snap, ptr: nat, o: nat)
    requires s.Valid() && s.pos == 8 * ptr + o && 0 < o < 8 && ptr < s.max
    ensures var nb := U8(And(s.buf[ptr], U8(256 - Shl32(1, 8 - o))));
            Emits(s, Snap(s.buf[ptr := nb], 8 * ptr + 8, s.max), Enc(Zeros(8 - o), true), Success)
  {
    hide Appends, And, Pow2, Shl32, ToBits;
    var k := 8 - o;
    Shl32One(k);
    Pow2Byte(k);
    ToBitsZero(k);
    var mask := 256 - Pow2(k);
    assert ToBits(0, k) + [] == ToBits(0, k);
    StoreRound(s, o, mask, 0, ToBits(0, k), []);
  }

  // ----- the cursor -----

  /** A cursor over a byte buffer. Pointers are indices into the buffer, which starts at index 0;
      the buffer may be longer than the limit. */
  class BitRef {
    var buffer: array<byte>
    var ptr: nat
    var offset: nat
    var max: nat

    ghost predicate Valid()
      reads this
    {
      && ptr <= max <= buffer.Length
      && offset < 8
      && (ptr == max ==> offset == 0)
    }

    ghost function State(): (s: Snap)
      reads this, buffer
      requires Valid()
      ensures s.Valid()
    {
      Snap(buffer[..], 8 * ptr + offset, max)
    }

    constructor (start: array<byte>, maxSize: nat)
      requires maxSize <= start.Length
      ensures Valid() && buffer == start && ptr == 0 && offset == 0 && max == maxSize
    {
      buffer, ptr, offset, max := start, 0, 0, maxSize;
    }

    /** A second cursor at the same place of the same buffer. */
    constructor Copy(other: BitRef)
      requires other.Valid()
      ensures Valid() && buffer == other.buffer && ptr == other.ptr && offset == other.offset && max == other.max
    {
      buffer, ptr, offset, max := other.buffer, other.ptr, other.offset, other.max;
    }

    /** The distance in bits from the start of the buffer. */
    function Distance(): nat
      reads this
    {
      offset + 8 * ptr
    }

    /** Appends the n low bits of value, most significant first. */
    method Pack(value: u32, n: nat) returns (code: Code)
      requires Valid() && n <= 31
      modifies this`ptr, this`offset, buffer
      ensures Valid()
      ensures Emits(old(State()), State(), Enc(ToBits(value, n), true), code)
      ensures code != DecodeFail
    {
      hide ToBits, Low, Pow2, And, Shl, Shl32, Shr, KeepMask, Packing, Emits, U8, U32;
      var val: u32, nBits: nat := value, n;
      ghost var s := State();
      PackStart(s, value, n);
      while nBits > 0
        invariant Valid() && nBits <= n
        invariant Packing(s, State(), value, n, val, nBits)
        decreases nBits
      {
        if ptr >= max {
          PackEnd(s, State(), value, n, val, nBits);
          return EncodeFail;
        }
        ghost var t, v, m := State(), val, nBits;
        MaskedValue(val, nBits);
        var mask := U32(Shl32(1, nBits) - 1);
        val := And(val, mask);
        var keepmask := KeepMask(offset);
        if 8 - offset > nBits {
          var bit := U8(Shl32(val, 8 - offset - nBits));
          buffer[ptr] := U8(And(buffer[ptr], keepmask) + bit);
          RoundPart(s, t, ptr, offset, value, n, v, m, val, buffer[ptr]);
          offset := offset + nBits;
          nBits := 0;
          assert State().buf == t.buf[ptr := buffer[ptr]];
        } else {
          var bit := U8(Shr(val, nBits - 8 + offset));
          buffer[ptr] := U8(And(buffer[ptr], keepmask) + bit);
          RoundWhole(s, t, ptr, offset, value, n, v, m, val, buffer[ptr]);
          nBits := nBits - (8 - offset);
          offset := 0;
          ptr := ptr + 1;
          assert State().buf == t.buf[ptr - 1 := buffer[ptr - 1]];
        }
      }
      PackEnd(s, State(), value, n, val, nBits);
      return Success;
    }

    /** Reads an n-bit field. The value is defined for fields of up to 32 bits. */
    method Unpack(n: u32) returns (value: u32, code: Code)
      requires Valid()
      modifies this`ptr, this`offset
      ensures Valid()
      ensures code == Success <==> DecBits(State().Bits(), old(State()).pos, n).Ok?
      ensures code == Success ==> State().pos == old(State()).pos + n
      ensures code == Success && n <= 32 ==> value == DecBits(State().Bits(), old(State()).pos, n).val
      ensures code != Success ==> code == DecodeFail && ptr == max && State().pos >= old(State()).pos
    {
      hide Pow2, And, Shr, Shl32, FieldMask, RestMask, Unpacking, U32, ToNat, BitsOf;
      var val: u32, nBits: nat := 0, n;
      ghost var p0, bytes := State().pos, buffer[..max];
      ReadStart(BitsOf(bytes), p0, n);
      while nBits > 0
        invariant Valid() && nBits <= n && State().pos == p0 + n - nBits
        invariant Unpacking(BitsOf(bytes), p0, n, State().pos, val, nBits)
        decreases nBits
      {
        if ptr >= max {
          return val, DecodeFail;
        }
        if 8 - offset > nBits {
          ReadPart(bytes, p0, n, val, nBits, ptr, offset);
          var mask := FieldMask(offset, nBits);
          val := U32(val + Shr(And(buffer[ptr], mask), 8 - offset - nBits));
          offset := offset + nBits;
          nBits := 0;
        } else {
          ReadWhole(bytes, p0, n, val, nBits, ptr, offset);
          var mask := RestMask(offset);
          val := U32(val + Shl32(And(buffer[ptr], mask), nBits - 8 + offset));
          nBits := nBits - (8 - offset);
          offset := 0;
          ptr := ptr + 1;
        }
      }
      ReadEnd(BitsOf(bytes), p0, n, State().pos, val);
      return val, Success;
    }

    /** Moves to the next byte boundary without looking at the bits in between. */
    method AlignBytes() returns (code: Code)
      requires Valid()
      modifies this`ptr, this`offset
      ensures Valid() && code == Success
      ensures State().pos == old(State()).pos + Pad(old(State()).pos)
    {
      hide Pad;
      PadWithin(ptr, offset);
      if offset == 0 {
        return Success;
      }
      offset := 0;
      ptr := ptr + 1;
      return Success;
    }

    /** Moves to the next byte boundary, clearing the bits in between. As for AlignBytes, the room check
        of the source cannot fail: a cursor inside a byte is below the limit. */
    method AlignBytesZero() returns (code: Code)
      requires Valid()
      modifies this`ptr, this`offset, buffer
      ensures Valid() && code == Success
      ensures Emits(old(State()), State(), Enc(Zeros(Pad(old(State()).pos)), true), code)
    {
      hide And, Emits, Appends, Pow2, Shl32, U8, Pad;
      ghost var s := State();
      EmitsNothing(s);
      PadWithin(ptr, offset);
      assert Zeros(0) == [];
      if offset == 0 {
        return Success;
      }
      ClearedByte(s, ptr, offset);
      var mask := U8(256 - Shl32(1, 8 - offset));
      buffer[ptr] := U8(And(buffer[ptr], mask));
      offset := 0;
      ptr := ptr + 1;
      assert State().buf == s.buf[ptr - 1 := buffer[ptr - 1]];
      return Success;
    }
  }
}
