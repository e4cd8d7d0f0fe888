/** What the readers of messages do with bits that nobody may have written. */
module Readers {
  import opened Bits
  import opened BitCursor
  import opened Integers
  import opened Lengths
  import opened OpenField
  import opened Schema

  /** What reading a message gives. The reader of an open-type field does not notice that its length could not be read,
      or that its body ended elsewhere than the length says: it goes on from where it stopped with the length that was
      stored, and skips what is left of it. */
  function Read(s: Schema, b: seq<bool>, pos: nat): Dec<Value>
    requires Good(s)
    decreases s, 0
  {
    match s
    case Open(body) =>
      var (len, p) := StoredLength(b, pos);
      var (v, q) :- Read(body, b, p);
      Ok(v, Skipped(p, len, q, |b|))
    case Both(x, y) =>
      var (v, p) :- Read(x, b, pos);
      var (w, q) :- Read(y, b, p);
      Ok(Pair(v, w), q)
    case ListOf(lo, hi, item) =>
      var (n, p) :- DecUnaligned(b, pos, lo, hi);
      if n < 0 then Fail
      else
        var (vs, q) :- ReadList(item, b, p, n);
        Ok(List(vs), q)
    case _ => DecodeField(s, b, pos)
  }

  function ReadList(item: Schema, b: seq<bool>, pos: nat, n: nat): (d: Dec<seq<Value>>)
    requires Good(item)
    ensures d.Ok? ==> |d.val| == n
    decreases item, n + 1
  {
    if n == 0 then Ok([], pos)
    else
      var (vs, p) :- ReadList(item, b, pos, n - 1);
      var (v, q) :- Read(item, b, p);
      Ok(vs + [v], q)
  }

  lemma OpenReads(body: Schema, b: seq<bool>, pos: nat)
    requires Good(Open(body))
    ensures Good(body)
    ensures var stored := StoredLength(b, pos);
            var e := Read(body, b, stored.1);
            Read(Open(body), b, pos) ==
              if e.Ok? then Ok(e.val, Skipped(stored.1, stored.0, e.pos, |b|)) else Fail
  {
    hide StoredLength, Skipped;
  }

  lemma BothReads(x: Schema, y: Schema, b: seq<bool>, pos: nat)
    requires Good(Both(x, y))
    ensures Good(x) && Good(y)
    ensures var d := Read(x, b, pos);
            Read(Both(x, y), b, pos) ==
              if d.Fail? then Fail
              else
                var e := Read(y, b, d.pos);
                if e.Ok? then Ok(Pair(d.val, e.val), e.pos) else Fail
  {
  }

  lemma ListOfReads(s: Schema, b: seq<bool>, pos: nat)
    requires s.ListOf? && Good(s)
    ensures Good(s.item) && GoodRange(Uint32, s.lo, s.hi)
    ensures var d := DecUnaligned(b, pos, s.lo, s.hi);
            Read(s, b, pos) ==
              if d.Fail? || d.val < 0 then Fail
              else
                var l := ReadList(s.item, b, d.pos, d.val);
                if l.Ok? then Ok(List(l.val), l.pos) else Fail
  {
    hide DecUnaligned, ReadList;
  }

  /** Reading one item more. */
  lemma ListReads(item: Schema, b: seq<bool>, pos: nat, n: nat)
    requires Good(item)
    ensures ReadList(item, b, pos, 0) == Ok([], pos)
    ensures var d := ReadList(item, b, pos, n);
            ReadList(item, b, pos, n + 1) ==
              if d.Fail? then Fail
              else
                var e := Read(item, b, d.pos);
                if e.Ok? then Ok(d.val + [e.val], e.pos) else Fail
  {
    hide Read, Good;
  }

  /** A message that decodes is read as what it decodes to. */
  lemma {:induction false} DecodedIsRead(s: Schema, b: seq<bool>, pos: nat)
    requires Good(s) && Decode(s, b, pos).Ok?
    ensures Read(s, b, pos) == Decode(s, b, pos)
    decreases s, 1
  {
    hide Decode, Read, DecLength, Fragmented, Skipped, Good, DecUnaligned, ReadList, DecodeList;
    if s.Open? {
      ComponentsAreGood(s);
      OpenDecodes(s.body, b, pos);
      OpenReads(s.body, b, pos);
      var d := DecLength(b, pos);
      DecodedIsRead(s.body, b, d.pos);
      DecodedInRange(s.body, b, d.pos);
      LengthBound(b, pos);
      SkipsToEnd(d.pos, d.val, Decode(s.body, b, d.pos).pos, |b|);
    } else if s.Both? {
      ComponentsAreGood(s);
      BothDecodes(s.first, s.second, b, pos);
      BothReads(s.first, s.second, b, pos);
      DecodedIsRead(s.first, b, pos);
      DecodedIsRead(s.second, b, Decode(s.first, b, pos).pos);
    } else if s.ListOf? {
      ListOfDecodes(s, b, pos);
      ListOfReads(s, b, pos);
      var d := DecUnaligned(b, pos, s.lo, s.hi);
      ListDecodedIsRead(s.item, b, d.pos, d.val);
    } else {
      FieldIsRead(s, b, pos);
    }
  }

  lemma FieldIsRead(s: Schema, b: seq<bool>, pos: nat)
    requires Good(s) && !s.Open? && !s.Both? && !s.ListOf?
    ensures Read(s, b, pos) == Decode(s, b, pos) == DecodeField(s, b, pos)
  {
    hide DecodeField;
  }

  lemma SkipsToEnd(start: nat, len: nat, pos: nat, cap: nat)
    requires len <= 16383 && start <= pos <= start + 8 * len <= cap
    ensures Skipped(start, len, pos, cap) == start + 8 * len
  {
  }

  /** From the end of the buffer nothing can be skipped, whatever the length. */
  lemma SkipsNothing(len: nat, cap: nat)
    ensures Skipped(cap, len, cap, cap) == cap
  {
  }

  lemma {:induction false} ListDecodedIsRead(item: Schema, b: seq<bool>, pos: nat, n: nat)
    requires Good(item) && DecodeList(item, b, pos, n).Ok?
    ensures ReadList(item, b, pos, n) == DecodeList(item, b, pos, n)
    decreases item, n + 2
  {
    hide Decode, Read, Good;
    if n > 0 {
      ListDecodedIsRead(item, b, pos, n - 1);
      DecodedIsRead(item, b, DecodeList(item, b, pos, n - 1).pos);
    }
  }

  /** But more is read than decodes: the octet of a message of length 0, which belongs to whatever follows. */
  lemma {:induction false} ReadsBeyond(b: seq<bool>, pos: nat, o: byte)
    requires At(b, pos, ToBits(0, 8) + ToBits(o, 8))
    ensures var s := Open(Unaligned(Uint8, 0, 255));
            && Good(s) && Decode(s, b, pos).Fail?
            && Read(s, b, pos).Ok? && Read(s, b, pos).val == Num(o)
  {
    hide ToBits, ToNat, DecLength, EncLength, DecUnaligned, Skipped, CeilLog2, RangeBits, Fragmented;
    var s := Unaligned(Uint8, 0, 255);
    ByteIsGood();
    AtThen(b, pos, ToBits(0, 8), ToBits(o, 8));
    ZeroLength();
    LengthRoundTrip(b, pos, 0);
    ByteReads(b, pos + 8, o);
    OpenDecodes(s, b, pos);
    OpenReads(s, b, pos);
  }

  /** And a message whose length is in the fragmented form is read with length 0, from two bits on. */
  lemma {:induction false} ReadsFragmented(b: seq<bool>, pos: nat, o: byte)
    requires At(b, pos, [true, true] + ToBits(o, 8))
    ensures var s := Open(Unaligned(Uint8, 0, 255));
            && Good(s) && Decode(s, b, pos).Fail?
            && Read(s, b, pos) == Ok(Num(o), Skipped(pos + 2, 0, pos + 10, |b|))
  {
    hide ToBits, ToNat, DecUnaligned, Skipped, CeilLog2, RangeBits;
    var s := Unaligned(Uint8, 0, 255);
    ByteIsGood();
    AtThen(b, pos, [true, true], ToBits(o, 8));
    OneOne(b, pos);
    ByteReads(b, pos + 2, o);
    OpenDecodes(s, b, pos);
    OpenReads(s, b, pos);
  }

  lemma {:induction false} OneOne(b: seq<bool>, pos: nat)
    requires At(b, pos, [true, true])
    ensures DecLength(b, pos).Fail? && StoredLength(b, pos) == (0, pos + 2)
  {
    hide ToBits, ToNat;
    assert b[pos..pos + 2][0] && b[pos..pos + 2][1];
    OneBit(b, pos);
    OneBit(b, pos + 1);
  }

  lemma {:induction false} OneBit(b: seq<bool>, pos: nat)
    requires pos < |b| && b[pos]
    ensures DecBits(b, pos, 1) == Ok(1, pos + 1)
  {
    var x := b[pos..pos + 1];
    assert x[..0] == [];
    assert ToNat(x) == 2 * ToNat(x[..0]) + (if x[0] then 1 else 0);
  }

  lemma ByteIsGood()
    ensures Good(Open(Unaligned(Uint8, 0, 255)))
  {
  }

  lemma {:induction false} ByteReads(b: seq<bool>, pos: nat, o: byte)
    requires At(b, pos, ToBits(o, 8))
    ensures var s := Unaligned(Uint8, 0, 255);
            Good(s) && Decode(s, b, pos) == Read(s, b, pos) == Ok(Num(o), pos + 8)
  {
    hide ToBits, ToNat, DecUnaligned, CeilLog2, RangeBits;
    ByteRange();
    UnalignedRoundTrip(b, pos, o, 0, 255);
  }

  lemma {:induction false} ZeroLength()
    ensures EncLength(0).bits == ToBits(0, 8)
  {
    ToBitsSplit(0, 1, 7);
    LowSmall(0, 7);
    hide ToBits;
  }
}
