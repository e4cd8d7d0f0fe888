/** Which bits the decoder accepts as which message: those in which it stands, field by field, and no others. */
module Acceptance {
  import opened Bits
  import opened BitCursor
  import opened Integers
  import opened Lengths
  import opened Strings
  import opened ExtGroups
  import opened Exactness
  import opened Schema

  /** A field stands between two positions. */
  ghost predicate FieldStands(s: Schema, v: Value, b: seq<bool>, pos: nat, q: nat)
    requires Good(s) && !s.Open? && !s.Both? && !s.ListOf?
  {
    match s
    case Enum(n, x, h) => v.Num? && v.n >= 0 && EnumStands(b, pos, n, x, h, v.n, q)
    case Unaligned(_, lb, ub) => v.Num? && Stands(b, pos, EncUnaligned(v.n, lb, ub), q)
    case Aligned(t, lb, ub) => v.Num? && AlignedStands(t, b, pos, lb, ub, v.n, q)
    case Small => v.Num? && v.n >= 0 && Stands(b, pos, EncSmall(v.n), q)
    case Length => v.Num? && v.n >= 0 && LengthStands(b, pos, v.n, q)
    case OctetString => v.Octets? && OctetsStand(b, pos, v.o, q)
    case FixedBitstring(n) => v.Bitstring? && v.nbits == n && BitstringStands(b, pos, n, v.buf, q)
    case DynBitstring =>
      && v.Bitstring? && v.nbits <= q
      && LengthStands(b, pos, v.nbits, q - v.nbits) && BitstringStands(b, q - v.nbits, v.nbits, v.buf, q)
    case ExtHeader(size, nogroups) =>
      && v.Flags? && |v.g| == size && pos + 7 <= q <= pos + 7 + size
      && FlagsStand(b, pos, size, nogroups, v.g[..q - pos - 7], q)
      && forall i :: q - pos - 7 <= i < size ==> !v.g[i]
    case Empty => v.Unit? && q == pos
  }

  /** Any bit position; one where a part of a message ends and the next one starts. */
  predicate Place(p: nat)
  {
    0 <= p
  }

  /** A message stands between two positions. The body of an open-type field may end before the field does. */
  ghost predicate MessageStands(s: Schema, v: Value, b: seq<bool>, pos: nat, q: nat)
    requires Good(s)
    decreases s, 0
  {
    match s
    case Open(body) =>
      exists n: nat, p: nat, r: nat {:trigger LengthStands(b, pos, n, p), Place(r)} ::
        LengthStands(b, pos, n, p) && Place(r) && MessageStands(body, v, b, p, r) && r <= p + 8 * n == q <= |b|
    case Both(x, y) =>
      v.Pair? && exists p: nat {:trigger Place(p)} ::
        Place(p) && MessageStands(x, v.a, b, pos, p) && MessageStands(y, v.b, b, p, q)
    case ListOf(lo, hi, item) =>
      v.List? && exists p: nat {:trigger Place(p)} ::
        Place(p) && Stands(b, pos, EncUnaligned(|v.vs|, lo, hi), p) && ListStands(item, v.vs, b, p, q)
    case _ => FieldStands(s, v, b, pos, q)
  }

  ghost predicate ListStands(item: Schema, vs: seq<Value>, b: seq<bool>, pos: nat, q: nat)
    requires Good(item)
    decreases item, |vs| + 1
  {
    if vs == [] then q == pos
    else
      exists p: nat {:trigger Place(p)} ::
        Place(p) && ListStands(item, vs[..|vs| - 1], b, pos, p) && MessageStands(item, vs[|vs| - 1], b, p, q)
  }

  lemma {:induction false} NumberExact(s: Schema, v: Value, b: seq<bool>, pos: nat, q: nat)
    requires Good(s) && (s.Enum? || s.Unaligned? || s.Aligned? || s.Small? || s.Length?)
    ensures Decode(s, b, pos) == Ok(v, q) <==> FieldStands(s, v, b, pos, q)
  {
    hide DecEnum, DecUnaligned, DecAligned, DecSmall, DecLength, EnumStands, Stands, AlignedStands, LengthStands,
      EncUnaligned, EncSmall, GoodEnum, GoodRange;
    if v.Num? {
      match s {
        case Enum(n, x, h) => if v.n >= 0 { EnumExact(b, pos, n, x, h, v.n, q); }
        case Unaligned(_, lb, ub) => UnalignedExact(b, pos, lb, ub, v.n, q);
        case Aligned(t, lb, ub) => AlignedExact(t, b, pos, lb, ub, v.n, q);
        case Small => if v.n >= 0 { SmallExact(b, pos, v.n, q); }
        case Length => if v.n >= 0 { LengthExact(b, pos, v.n, q); }
      }
    }
  }

  lemma {:induction false} StringExact(s: Schema, v: Value, b: seq<bool>, pos: nat, q: nat)
    requires s.OctetString? || s.FixedBitstring? || s.DynBitstring?
    ensures Decode(s, b, pos) == Ok(v, q) <==> FieldStands(s, v, b, pos, q)
  {
    hide DecLength, DecOctets, DecBitstring, OctetsStand, BitstringStands, LengthStands;
    match s {
      case OctetString =>
        if v.Octets? {
          OctetsExact(b, pos, v.o, q);
        }
      case FixedBitstring(n) =>
        if v.Bitstring? {
          BitstringExact(b, pos, n, v.buf, q);
        }
      case DynBitstring =>
        var d := DecLength(b, pos);
        if v.Bitstring? && v.nbits <= q {
          LengthExact(b, pos, v.nbits, q - v.nbits);
          BitstringExact(b, q - v.nbits, v.nbits, v.buf, q);
        }
        if d.Ok? && DecBitstring(b, d.pos, d.val).Ok? {
          BitstringTaken(b, d.pos, d.val);
        }
    }
  }

  lemma {:induction false} HeaderExact(s: Schema, v: Value, b: seq<bool>, pos: nat, q: nat)
    requires Good(s) && s.ExtHeader?
    ensures Decode(s, b, pos) == Ok(v, q) <==> FieldStands(s, v, b, pos, q)
  {
    hide DecExt, FlagsStand, Overlay;
    var size, d := s.size, DecExt(b, pos, s.size, s.nofNogroups);
    if d.Ok? {
      ExtExact(b, pos, size, s.nofNogroups, d.val, d.pos);
      FlagsEnd(b, pos, size, s.nofNogroups, d.val, d.pos);
      OverlayAt(size, d.val);
    }
    if v.Flags? && |v.g| == size && pos + 7 <= q <= pos + 7 + size {
      var k := q - pos - 7;
      ExtExact(b, pos, size, s.nofNogroups, v.g[..k], q);
    }
  }

  lemma FlagsEnd(b: seq<bool>, pos: nat, size: nat, nofNogroups: u32, g: seq<bool>, q: nat)
    requires FlagsStand(b, pos, size, nofNogroups, g, q)
    ensures q == pos + 7 + |g| && |g| <= size
  {
    hide EncSmall;
    SmallForm(U32(|g| + nofNogroups - 1));
  }

  /** Flags stored in a fresh header, and nothing behind them. */
  lemma OverlayAt(size: nat, g: seq<bool>)
    requires |g| <= size
    ensures forall h :: Overlay(seq(size, _ => false), g) == h
              <==> |h| == size && h[..|g|] == g && forall i :: |g| <= i < size ==> !h[i]
  {
    var o := Overlay(seq(size, _ => false), g);
    assert o[..|g|] == g;
    forall h | |h| == size && h[..|g|] == g && forall i :: |g| <= i < size ==> !h[i]
      ensures o == h
    {
      assert h == h[..|g|] + h[|g|..];
      assert h[|g|..] == o[|g|..];
    }
  }

  lemma {:induction false} FieldExact(s: Schema, v: Value, b: seq<bool>, pos: nat, q: nat)
    requires Good(s) && !s.Open? && !s.Both? && !s.ListOf?
    ensures Decode(s, b, pos) == Ok(v, q) <==> FieldStands(s, v, b, pos, q)
  {
    if s.Enum? || s.Unaligned? || s.Aligned? || s.Small? || s.Length? {
      NumberExact(s, v, b, pos, q);
    } else if s.ExtHeader? {
      HeaderExact(s, v, b, pos, q);
    } else if !s.Empty? {
      StringExact(s, v, b, pos, q);
    }
  }

  /** Whatever the bits are, the decoder returns a message and its end exactly if the message stands there. */
  lemma {:induction false} DecodesExactly(s: Schema, v: Value, b: seq<bool>, pos: nat, q: nat)
    requires Good(s)
    ensures Decode(s, b, pos) == Ok(v, q) <==> MessageStands(s, v, b, pos, q)
    decreases s, 1
  {
    hide Decode, DecLength, DecUnaligned, Good, LengthStands, Stands, EncUnaligned, FieldStands;
    if s.Open? {
      OpenExactly(s.body, v, b, pos, q);
    } else if s.Both? {
      BothExactly(s.first, s.second, v, b, pos, q);
    } else if s.ListOf? {
      ListOfExactly(s, v, b, pos, q);
    } else {
      FieldExact(s, v, b, pos, q);
    }
  }

  lemma {:induction false} OpenExactly(body: Schema, v: Value, b: seq<bool>, pos: nat, q: nat)
    requires Good(Open(body))
    ensures Decode(Open(body), b, pos) == Ok(v, q) <==> MessageStands(Open(body), v, b, pos, q)
    decreases Open(body), 0
  {
    hide Decode, DecLength, LengthStands;
    ComponentsAreGood(Open(body));
    hide Good;
    OpenDecodes(body, b, pos);
    var d := DecLength(b, pos);
    if Decode(Open(body), b, pos) == Ok(v, q) {
      var r := Decode(body, b, d.pos).pos;
      LengthExact(b, pos, d.val, d.pos);
      DecodesExactly(body, v, b, d.pos, r);
      assert Place(r);
    }
    if MessageStands(Open(body), v, b, pos, q) {
      var n: nat, p: nat, r: nat :|
        LengthStands(b, pos, n, p) && Place(r) && MessageStands(body, v, b, p, r) && r <= p + 8 * n == q <= |b|;
      LengthExact(b, pos, n, p);
      DecodesExactly(body, v, b, p, r);
    }
  }

  lemma {:induction false} BothExactly(x: Schema, y: Schema, v: Value, b: seq<bool>, pos: nat, q: nat)
    requires Good(Both(x, y))
    ensures Decode(Both(x, y), b, pos) == Ok(v, q) <==> MessageStands(Both(x, y), v, b, pos, q)
    decreases Both(x, y), 0
  {
    hide Decode;
    ComponentsAreGood(Both(x, y));
    hide Good;
    BothDecodes(x, y, b, pos);
    var d := Decode(x, b, pos);
    if Decode(Both(x, y), b, pos) == Ok(v, q) {
      DecodesExactly(x, v.a, b, pos, d.pos);
      DecodesExactly(y, v.b, b, d.pos, q);
      assert Place(d.pos);
    }
    if MessageStands(Both(x, y), v, b, pos, q) {
      var p: nat :| Place(p) && MessageStands(x, v.a, b, pos, p) && MessageStands(y, v.b, b, p, q);
      DecodesExactly(x, v.a, b, pos, p);
      DecodesExactly(y, v.b, b, p, q);
    }
  }

  lemma {:induction false} ListOfExactly(s: Schema, v: Value, b: seq<bool>, pos: nat, q: nat)
    requires Good(s) && s.ListOf?
    ensures Decode(s, b, pos) == Ok(v, q) <==> MessageStands(s, v, b, pos, q)
    decreases s, 0
  {
    hide Decode, DecodeList, DecUnaligned, Stands, EncUnaligned, ListStands, GoodRange;
    ListOfDecodes(s, b, pos);
    hide Good;
    var d := DecUnaligned(b, pos, s.lo, s.hi);
    if Decode(s, b, pos) == Ok(v, q) {
      UnalignedExact(b, pos, s.lo, s.hi, d.val, d.pos);
      ListExactly(s.item, v.vs, b, d.pos, q);
      assert Place(d.pos);
    }
    if MessageStands(s, v, b, pos, q) {
      var p: nat :|
        Place(p) && Stands(b, pos, EncUnaligned(|v.vs|, s.lo, s.hi), p) && ListStands(s.item, v.vs, b, p, q);
      UnalignedExact(b, pos, s.lo, s.hi, |v.vs|, p);
      ListExactly(s.item, v.vs, b, p, q);
    }
  }

  lemma {:induction false} ListExactly(item: Schema, vs: seq<Value>, b: seq<bool>, pos: nat, q: nat)
    requires Good(item)
    ensures DecodeList(item, b, pos, |vs|) == Ok(vs, q) <==> ListStands(item, vs, b, pos, q)
    decreases item, |vs| + 2
  {
    hide Decode, DecodeList, Good;
    if vs == [] {
      ListDecodes(item, b, pos, 0);
    } else {
      var n := |vs| - 1;
      var init, last, d := vs[..n], vs[n], DecodeList(item, b, pos, n);
      ListDecodes(item, b, pos, n);
      assert init + [last] == vs;
      if DecodeList(item, b, pos, |vs|) == Ok(vs, q) {
        assert (d.val + [last])[..n] == d.val;
        ListExactly(item, init, b, pos, d.pos);
        DecodesExactly(item, last, b, d.pos, q);
        assert Place(d.pos);
      }
      if ListStands(item, vs, b, pos, q) {
        var p: nat :| Place(p) && ListStands(item, init, b, pos, p) && MessageStands(item, last, b, p, q);
        ListExactly(item, init, b, pos, p);
        DecodesExactly(item, last, b, p, q);
      }
    }
  }
}
