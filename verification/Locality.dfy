/** Decoding depends on no bit behind the one where it ends. */
module Locality {
  import opened Bits
  import opened BitCursor
  import opened Integers
  import opened Lengths
  import opened Strings
  import opened ExtGroups
  import opened Schema

  /** Two bit sequences with the same first q bits. */
  ghost predicate Agree(b: seq<bool>, c: seq<bool>, q: nat) {
    q <= |b| && q <= |c| && b[..q] == c[..q]
  }

  /** Whatever is decoded from the first sequence is decoded from the second one too. */
  ghost predicate Carries<T(!new)>(d: Dec<T>, e: Dec<T>, b: seq<bool>, c: seq<bool>) {
    d.Ok? && Agree(b, c, d.pos) ==> e == d
  }

  lemma AgreeLess(b: seq<bool>, c: seq<bool>, q: nat, p: nat)
    requires Agree(b, c, q) && p <= q
    ensures Agree(b, c, p)
  {
    assert b[..p] == b[..q][..p];
    assert c[..p] == c[..q][..p];
  }

  lemma BitsLocal(b: seq<bool>, c: seq<bool>, pos: nat, n: nat)
    ensures Carries(DecBits(b, pos, n), DecBits(c, pos, n), b, c)
  {
    hide ToNat;
    if pos + n <= |b| && Agree(b, c, pos + n) {
      assert b[pos..pos + n] == b[..pos + n][pos..];
      assert c[pos..pos + n] == c[..pos + n][pos..];
    }
  }

  lemma SmallLocal(b: seq<bool>, c: seq<bool>, pos: nat)
    ensures Carries(DecSmall(b, pos), DecSmall(c, pos), b, c)
  {
    hide DecBits, Agree;
    var d := DecSmall(b, pos);
    if d.Ok? && Agree(b, c, d.pos) {
      AgreeLess(b, c, d.pos, pos + 1);
      BitsLocal(b, c, pos, 1);
      BitsLocal(b, c, pos + 1, 6);
    }
  }

  lemma LengthLocal(b: seq<bool>, c: seq<bool>, pos: nat)
    ensures Carries(DecLength(b, pos), DecLength(c, pos), b, c)
  {
    hide DecBits, Agree;
    var d := DecLength(b, pos);
    if d.Ok? && Agree(b, c, d.pos) {
      AgreeLess(b, c, d.pos, pos + 1);
      BitsLocal(b, c, pos, 1);
      BitsLocal(b, c, pos + 1, 7);
      if d.pos >= pos + 2 {
        AgreeLess(b, c, d.pos, pos + 2);
        BitsLocal(b, c, pos + 1, 1);
        BitsLocal(b, c, pos + 2, 14);
      }
    }
  }

  lemma EnumLocal(b: seq<bool>, c: seq<bool>, pos: nat, n: nat, x: nat, h: bool)
    requires GoodEnum(n, x, h)
    ensures Carries(DecEnum(b, pos, n, x, h), DecEnum(c, pos, n, x, h), b, c)
  {
    hide DecBits, Agree, DecSmall, CeilLog2;
    var d := DecEnum(b, pos, n, x, h);
    if d.Ok? && Agree(b, c, d.pos) {
      if h {
        SmallMoves(b, pos + 1);
        AgreeLess(b, c, d.pos, pos + 1);
        BitsLocal(b, c, pos, 1);
        BitsLocal(b, c, pos + 1, CeilLog2(n - x));
        SmallLocal(b, c, pos + 1);
      } else {
        BitsLocal(b, c, pos, CeilLog2(n));
      }
    }
  }

  lemma UnalignedLocal(b: seq<bool>, c: seq<bool>, pos: nat, lb: int, ub: int)
    ensures Carries(DecUnaligned(b, pos, lb, ub), DecUnaligned(c, pos, lb, ub), b, c)
  {
    hide DecBits, Agree, CeilLog2;
    if lb <= ub {
      BitsLocal(b, c, pos, RangeBits(lb, ub));
    }
  }

  lemma AlignedLocal(t: IntType, b: seq<bool>, c: seq<bool>, pos: nat, lb: int, ub: int)
    requires lb <= ub
    ensures Carries(DecAligned(t, b, pos, lb, ub), DecAligned(t, c, pos, lb, ub), b, c)
  {
    hide DecBits, CeilLog2, t.Wrap, Pad;
    if InOctets(lb, ub) {
      BitsLocal(b, c, pos + Pad(pos), OctetBits(lb, ub));
    } else {
      BitsLocal(b, c, pos, RangeBits(lb, ub));
    }
  }

  lemma {:induction false} TakeOctetsLocal(b: seq<bool>, c: seq<bool>, pos: nat, n: nat)
    ensures Carries(TakeOctets(b, pos, n), TakeOctets(c, pos, n), b, c)
  {
    hide DecBits, Agree;
    var d := TakeOctets(b, pos, n);
    if n > 0 && d.Ok? && Agree(b, c, d.pos) {
      AgreeLess(b, c, d.pos, pos + 8 * (n - 1));
      TakeOctetsLocal(b, c, pos, n - 1);
      BitsLocal(b, c, pos + 8 * (n - 1), 8);
    }
  }

  lemma OctetsLocal(b: seq<bool>, c: seq<bool>, pos: nat)
    ensures Carries(DecOctets(b, pos), DecOctets(c, pos), b, c)
  {
    hide DecLength, TakeOctets, Agree;
    var d := DecOctets(b, pos);
    if d.Ok? && Agree(b, c, d.pos) {
      var l := DecLength(b, pos);
      AgreeLess(b, c, d.pos, l.pos);
      LengthLocal(b, c, pos);
      TakeOctetsLocal(b, c, l.pos, l.val);
    }
  }

  lemma {:induction false} TakeDownLocal(b: seq<bool>, c: seq<bool>, pos: nat, k: nat)
    ensures Carries(TakeDown(b, pos, k), TakeDown(c, pos, k), b, c)
    decreases k
  {
    hide DecBits, Agree;
    var d := TakeDown(b, pos, k);
    if k > 0 && d.Ok? && Agree(b, c, d.pos) {
      AgreeLess(b, c, d.pos, pos + 8);
      BitsLocal(b, c, pos, 8);
      TakeDownLocal(b, c, pos + 8, k - 1);
    }
  }

  lemma BitstringLocal(b: seq<bool>, c: seq<bool>, pos: nat, n: nat)
    ensures Carries(DecBitstring(b, pos, n), DecBitstring(c, pos, n), b, c)
  {
    hide DecBits, TakeDown, Agree;
    var d := DecBitstring(b, pos, n);
    if d.Ok? && Agree(b, c, d.pos) {
      AgreeLess(b, c, d.pos, pos + TopBitCount(n));
      BitsLocal(b, c, pos, TopBitCount(n));
      TakeDownLocal(b, c, pos + TopBitCount(n), NofOctets(n) - 1);
    }
  }

  lemma DynBitstringLocal(b: seq<bool>, c: seq<bool>, pos: nat)
    ensures Carries(DecodeField(DynBitstring, b, pos), DecodeField(DynBitstring, c, pos), b, c)
  {
    hide DecLength, DecBitstring, Agree;
    var d := DecodeField(DynBitstring, b, pos);
    if d.Ok? && Agree(b, c, d.pos) {
      var l := DecLength(b, pos);
      BitstringMoves(b, l.pos, l.val);
      AgreeLess(b, c, d.pos, l.pos);
      LengthLocal(b, c, pos);
      BitstringLocal(b, c, l.pos, l.val);
    }
  }

  lemma ExtLocal(b: seq<bool>, c: seq<bool>, pos: nat, size: nat, nofNogroups: u32)
    ensures Carries(DecExt(b, pos, size, nofNogroups), DecExt(c, pos, size, nofNogroups), b, c)
  {
    hide DecSmall;
    var d := DecExt(b, pos, size, nofNogroups);
    if d.Ok? && Agree(b, c, d.pos) {
      var l := DecSmall(b, pos);
      AgreeLess(b, c, d.pos, l.pos);
      SmallLocal(b, c, pos);
      assert b[l.pos..d.pos] == b[..d.pos][l.pos..];
      assert c[l.pos..d.pos] == c[..d.pos][l.pos..];
    }
  }

  lemma {:induction false} FieldLocal(s: Schema, b: seq<bool>, c: seq<bool>, pos: nat)
    requires Good(s) && !s.Open? && !s.Both? && !s.ListOf?
    ensures Carries(Decode(s, b, pos), Decode(s, c, pos), b, c)
  {
    hide DecEnum, DecUnaligned, DecAligned, DecSmall, DecLength, DecOctets, DecBitstring, DecExt, Agree, Overlay,
      GoodEnum, GoodRange;
    match s {
      case Enum(n, x, h) => EnumLocal(b, c, pos, n, x, h);
      case Unaligned(_, lb, ub) => UnalignedLocal(b, c, pos, lb, ub);
      case Aligned(t, lb, ub) => AlignedLocal(t, b, c, pos, lb, ub);
      case Small => SmallLocal(b, c, pos);
      case Length => LengthLocal(b, c, pos);
      case OctetString => OctetsLocal(b, c, pos);
      case FixedBitstring(n) => BitstringLocal(b, c, pos, n);
      case DynBitstring => DynBitstringLocal(b, c, pos);
      case ExtHeader(size, nogroups) => ExtLocal(b, c, pos, size, nogroups);
      case Empty =>
    }
  }

  /** A message that decodes, decodes from any other bits that agree up to its end. */
  lemma {:induction false} Local(s: Schema, b: seq<bool>, c: seq<bool>, pos: nat)
    requires Good(s) && Decode(s, b, pos).Ok? && Agree(b, c, Decode(s, b, pos).pos)
    ensures Decode(s, c, pos) == Decode(s, b, pos)
    decreases s, 1
  {
    hide Decode, Agree, DecLength, DecUnaligned, Good, InRange;
    var q := Decode(s, b, pos).pos;
    if s.Open? {
      ComponentsAreGood(s);
      OpenDecodes(s.body, b, pos);
      OpenDecodes(s.body, c, pos);
      var d := DecLength(b, pos);
      DecodedInRange(s.body, b, d.pos);
      AgreeLess(b, c, q, d.pos);
      LengthLocal(b, c, pos);
      AgreeLess(b, c, q, Decode(s.body, b, d.pos).pos);
      Local(s.body, b, c, d.pos);
      AgreeRoom(b, c, q);
    } else if s.Both? {
      ComponentsAreGood(s);
      BothDecodes(s.first, s.second, b, pos);
      BothDecodes(s.first, s.second, c, pos);
      var p := Decode(s.first, b, pos).pos;
      DecodedInRange(s.second, b, p);
      AgreeLess(b, c, q, p);
      Local(s.first, b, c, pos);
      Local(s.second, b, c, p);
    } else if s.ListOf? {
      ListOfDecodes(s, b, pos);
      ListOfDecodes(s, c, pos);
      var d := DecUnaligned(b, pos, s.lo, s.hi);
      ListInRange(s.item, b, d.pos, d.val);
      AgreeLess(b, c, q, d.pos);
      UnalignedLocal(b, c, pos, s.lo, s.hi);
      ListLocal(s.item, b, c, d.pos, d.val);
    } else {
      FieldLocal(s, b, c, pos);
    }
  }

  lemma AgreeRoom(b: seq<bool>, c: seq<bool>, q: nat)
    requires Agree(b, c, q)
    ensures q <= |c|
  {
  }

  lemma {:induction false} ListLocal(item: Schema, b: seq<bool>, c: seq<bool>, pos: nat, n: nat)
    requires Good(item) && DecodeList(item, b, pos, n).Ok? && Agree(b, c, DecodeList(item, b, pos, n).pos)
    ensures DecodeList(item, c, pos, n) == DecodeList(item, b, pos, n)
    decreases item, n + 2
  {
    hide Decode, DecodeList, Agree, Good, InRange;
    ListDecodes(item, b, pos, 0);
    ListDecodes(item, c, pos, 0);
    if n > 0 {
      ListDecodes(item, b, pos, n - 1);
      ListDecodes(item, c, pos, n - 1);
      var p := DecodeList(item, b, pos, n - 1).pos;
      DecodedInRange(item, b, p);
      AgreeLess(b, c, DecodeList(item, b, pos, n).pos, p);
      ListLocal(item, b, c, pos, n - 1);
      Local(item, b, c, p);
    }
  }
}
