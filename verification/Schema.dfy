/** Messages composed of packed fields, as the generated message classes compose them. */
module Schema {
  import opened Bits
  import opened BitCursor
  import opened Integers
  import opened Lengths
  import opened Strings
  import opened ExtGroups
  import opened OpenField

  datatype Schema =
    | Enum(nofTypes: nat, nofExts: nat, hasExt: bool)
    | Unaligned(t: IntType, lb: int, ub: int)
    | Aligned(t: IntType, lb: int, ub: int)
    | Small
    | Length
    | OctetString
    | FixedBitstring(nbits: nat)
    | DynBitstring
    | ExtHeader(size: nat, nofNogroups: u32)
    | Open(body: Schema)
    | Empty
    | Both(first: Schema, second: Schema)
    | ListOf(lo: nat, hi: nat, item: Schema)

  datatype Value =
    | Num(n: int)
    | Octets(o: seq<byte>)
    | Bitstring(nbits: nat, buf: seq<byte>)
    | Flags(g: seq<bool>)
    | Unit
    | Pair(a: Value, b: Value)
    | List(vs: seq<Value>)

  /** The constants of a schema are ones the library supports. */
  predicate Good(s: Schema)
  {
    match s
    case Enum(n, x, h) => GoodEnum(n, x, h)
    case Unaligned(t, lb, ub) => GoodRange(t, lb, ub)
    case Aligned(t, lb, ub) => GoodAligned(t, lb, ub)
    case ExtHeader(size, _) => size <= 20
    case Open(body) => Good(body)
    case Both(a, b) => Good(a) && Good(b)
    case ListOf(lo, hi, item) => GoodRange(Uint32, lo, hi) && Good(item)
    case _ => true
  }

  /** A value of the C++ type that a schema stands for; it need not be in the declared range. */
  predicate Matches(s: Schema, v: Value)
  {
    match s
    case Enum(_, _, _) | Small | Length => v.Num? && 0 <= v.n < TWO_32
    case Unaligned(t, _, _) => v.Num? && t.Contains(v.n)
    case Aligned(t, _, _) => v.Num? && t.Contains(v.n)
    case OctetString => v.Octets? && |v.o| < TWO_32
    case FixedBitstring(n) => v.Bitstring? && v.nbits == n && |v.buf| == NofOctets(n)
    case DynBitstring => v.Bitstring? && v.nbits < TWO_32 && |v.buf| == NofOctets(v.nbits)
    case ExtHeader(size, _) => v.Flags? && |v.g| == size
    case Open(body) => Matches(body, v)
    case Empty => v.Unit?
    case Both(a, b) => v.Pair? && Matches(a, v.a) && Matches(b, v.b)
    case ListOf(_, _, item) => v.List? && |v.vs| < TWO_32 && forall i :: 0 <= i < |v.vs| ==> Matches(item, v.vs[i])
  }

  // ----- encoding -----

  /** The room of the side buffer of an open-type field. A longer body is cut off there. */
  const SIDE_BITS: nat := 8 * SIDE_BUFFER

  /** What a message encodes to at a bit position, and whether the encoders accept it. */
  function Encode(s: Schema, v: Value, pos: nat): Enc
    requires Good(s) && Matches(s, v)
    decreases s, 0
  {
    match s
    case Enum(n, x, h) => EncEnum(v.n, n, x, h)
    case Unaligned(_, lb, ub) => EncUnaligned(v.n, lb, ub)
    case Aligned(t, lb, ub) => EncAligned(U32(t.Wrap(v.n - lb)), lb, ub, pos)
    case Small => EncSmall(v.n)
    case Length => EncLength(v.n)
    case OctetString => EncOctets(v.o)
    case FixedBitstring(n) => EncBitstring(v.buf, n)
    case DynBitstring => Then(EncLength(v.nbits), EncBitstring(v.buf, v.nbits))
    case ExtHeader(_, nogroups) => EncExt(v.g, nogroups)
    case Open(body) => Enc(EncOpen(Clip(Encode(body, v, 0).bits, SIDE_BITS)).bits, Reports(body, v, 0, SIDE_BITS))
    case Empty => Enc([], true)
    case Both(a, b) => var e := Encode(a, v.a, pos); Then(e, Encode(b, v.b, pos + |e.bits|))
    case ListOf(lo, hi, item) =>
      var e := EncUnaligned(|v.vs|, lo, hi);
      Then(e, EncodeList(item, v.vs, pos + |e.bits|))
  }

  function EncodeList(item: Schema, vs: seq<Value>, pos: nat): Enc
    requires Good(item) && forall i :: 0 <= i < |vs| ==> Matches(item, vs[i])
    decreases item, |vs| + 1
  {
    if vs == [] then Enc([], true)
    else
      var e := EncodeList(item, vs[..|vs| - 1], pos);
      Then(e, Encode(item, vs[|vs| - 1], pos + |e.bits|))
  }

  /** Whether success is reported for a message that is packed at a position, when there are cap bits in all. A
      field that has no room is noticed, except where the outcome of a pack call is dropped: in unaligned integers,
      in the counts of lists, and behind the body of an open-type field. */
  predicate Reports(s: Schema, v: Value, pos: nat, cap: nat)
    requires Good(s) && Matches(s, v)
    decreases s, 1
  {
    match s
    case Unaligned(_, lb, ub) => EncUnaligned(v.n, lb, ub).ok
    case Open(body) => Reports(body, v, 0, SIDE_BITS)
    case Both(a, b) =>
      Reports(a, v.a, pos, cap) && Reports(b, v.b, Stop(pos + |Encode(a, v.a, pos).bits|, cap), cap)
    case ListOf(lo, hi, item) =>
      var e := EncUnaligned(|v.vs|, lo, hi);
      e.ok && ReportsList(item, v.vs, Stop(pos + |e.bits|, cap), cap)
    case _ => Encode(s, v, pos).ok && pos + |Encode(s, v, pos).bits| <= cap
  }

  predicate ReportsList(item: Schema, vs: seq<Value>, pos: nat, cap: nat)
    requires Good(item) && forall i :: 0 <= i < |vs| ==> Matches(item, vs[i])
    decreases item, |vs| + 2
  {
    vs != [] ==>
      var init := vs[..|vs| - 1];
      && ReportsList(item, init, pos, cap)
      && Reports(item, vs[|vs| - 1], Stop(pos + |EncodeList(item, init, pos).bits|, cap), cap)
  }

  /** Whether a message is accepted does not depend on where it is placed. */
  lemma {:induction false} OkAnywhere(s: Schema, v: Value, p: nat, q: nat)
    requires Good(s) && Matches(s, v)
    ensures Encode(s, v, p).ok == Encode(s, v, q).ok
    decreases s, 1
  {
    hide Encode, Good, Matches, EncodeList, EncOpen;
    if s.Both? {
      BothEncodes(s.first, s.second, v, p);
      BothEncodes(s.first, s.second, v, q);
      OkAnywhere(s.first, v.a, p, q);
      OkAnywhere(s.second, v.b, p + |Encode(s.first, v.a, p).bits|, q + |Encode(s.first, v.a, q).bits|);
    } else if s.ListOf? {
      ListOfEncodes(s, v, p);
      ListOfEncodes(s, v, q);
      var n := |EncUnaligned(|v.vs|, s.lo, s.hi).bits|;
      ListOkAnywhere(s.item, v.vs, p + n, q + n);
    } else {
      FieldOkAnywhere(s, v, p, q);
    }
  }

  lemma {:induction false} FieldOkAnywhere(s: Schema, v: Value, p: nat, q: nat)
    requires Good(s) && Matches(s, v) && !s.Both? && !s.ListOf?
    ensures Encode(s, v, p).ok == Encode(s, v, q).ok
  {
    hide EncodeList, EncEnum, EncUnaligned, EncSmall, EncLength, EncOctets, EncBitstring, EncExt, EncOpen;
  }

  lemma {:induction false} ListOkAnywhere(item: Schema, vs: seq<Value>, p: nat, q: nat)
    requires Good(item) && forall i :: 0 <= i < |vs| ==> Matches(item, vs[i])
    ensures EncodeList(item, vs, p).ok == EncodeList(item, vs, q).ok
    decreases item, |vs| + 2
  {
    hide Encode, Good, Matches;
    if vs != [] {
      var init, last := vs[..|vs| - 1], vs[|vs| - 1];
      ListOkAnywhere(item, init, p, q);
      OkAnywhere(item, last, p + |EncodeList(item, init, p).bits|, q + |EncodeList(item, init, q).bits|);
    }
  }

  /** Success is reported for accepted messages only. */
  lemma {:induction false} ReportsAccepted(s: Schema, v: Value, pos: nat, cap: nat)
    requires Good(s) && Matches(s, v)
    ensures Reports(s, v, pos, cap) ==> Encode(s, v, pos).ok
    decreases s, 1
  {
    hide Encode, Good, Matches, Reports, ReportsList, EncodeList;
    if s.Both? {
      BothEncodes(s.first, s.second, v, pos);
      var e := Encode(s.first, v.a, pos);
      BothReports(s.first, s.second, v, pos, cap);
      ReportsAccepted(s.first, v.a, pos, cap);
      ReportsAccepted(s.second, v.b, Stop(pos + |e.bits|, cap), cap);
      OkAnywhere(s.second, v.b, pos + |e.bits|, Stop(pos + |e.bits|, cap));
    } else if s.ListOf? {
      ListOfEncodes(s, v, pos);
      var n := |EncUnaligned(|v.vs|, s.lo, s.hi).bits|;
      ListOfReports(s, v, pos, cap);
      ListReportsAccepted(s.item, v.vs, Stop(pos + n, cap), cap);
      ListOkAnywhere(s.item, v.vs, pos + n, Stop(pos + n, cap));
    } else {
      FieldReports(s, v, pos, cap);
    }
  }

  lemma {:induction false} ListReportsAccepted(item: Schema, vs: seq<Value>, pos: nat, cap: nat)
    requires Good(item) && forall i :: 0 <= i < |vs| ==> Matches(item, vs[i])
    ensures ReportsList(item, vs, pos, cap) ==> EncodeList(item, vs, pos).ok
    decreases item, |vs| + 2
  {
    hide Encode, Good, Matches, Reports;
    if vs != [] {
      var init, last := vs[..|vs| - 1], vs[|vs| - 1];
      var p := pos + |EncodeList(item, init, pos).bits|;
      ListReportsAccepted(item, init, pos, cap);
      ReportsAccepted(item, last, Stop(p, cap), cap);
      OkAnywhere(item, last, p, Stop(p, cap));
    }
  }

  lemma FieldReports(s: Schema, v: Value, pos: nat, cap: nat)
    requires Good(s) && Matches(s, v) && !s.Both? && !s.ListOf?
    ensures Reports(s, v, pos, cap) ==> Encode(s, v, pos).ok
    ensures !s.Unaligned? && !s.Open? ==>
              (Reports(s, v, pos, cap) <==> Encode(s, v, pos).ok && pos + |Encode(s, v, pos).bits| <= cap)
  {
    hide EncodeList, EncEnum, EncUnaligned, EncSmall, EncLength, EncOctets, EncBitstring, EncExt, EncOpen;
  }

  /** A schema all of whose pack calls are checked. */
  predicate Checked(s: Schema)
  {
    match s
    case Unaligned(_, _, _) => false
    case Open(_) => false
    case ListOf(_, _, _) => false
    case Both(a, b) => Checked(a) && Checked(b)
    case _ => true
  }

  /** Where all pack calls are checked, success is reported exactly for accepted messages that fit. */
  lemma {:induction false} CheckedReports(s: Schema, v: Value, pos: nat, cap: nat)
    requires Good(s) && Matches(s, v) && Checked(s) && pos <= cap
    ensures Reports(s, v, pos, cap) <==> Encode(s, v, pos).ok && pos + |Encode(s, v, pos).bits| <= cap
    decreases s
  {
    hide Encode, Good, Matches, Reports;
    if s.Both? {
      BothEncodes(s.first, s.second, v, pos);
      var e := Encode(s.first, v.a, pos);
      BothReports(s.first, s.second, v, pos, cap);
      CheckedReports(s.first, v.a, pos, cap);
      CheckedReports(s.second, v.b, Stop(pos + |e.bits|, cap), cap);
    } else {
      FieldReports(s, v, pos, cap);
    }
  }

  /** Elsewhere it is reported without room: a number of 8 bits is, and an empty open-type field of 8 bits, at the
      end of a buffer. */
  lemma {:induction false} ReportedWithoutRoom(n: nat, cap: nat)
    requires n <= 255
    ensures var s := Unaligned(Uint8, 0, 255);
            && Good(s) && Matches(s, Num(n)) && Reports(s, Num(n), cap, cap) && |Encode(s, Num(n), cap).bits| == 8
    ensures var s := Open(Empty);
            && Good(s) && Matches(s, Unit) && Reports(s, Unit, cap, cap) && |Encode(s, Unit, cap).bits| == 8
  {
    hide Encode, Reports, Good, Matches;
    NumberWithoutRoom(n, cap);
    OpenWithoutRoom(cap);
  }

  lemma {:induction false} NumberWithoutRoom(n: nat, cap: nat)
    requires n <= 255
    ensures var s := Unaligned(Uint8, 0, 255);
            && Good(s) && Matches(s, Num(n)) && Reports(s, Num(n), cap, cap) && |Encode(s, Num(n), cap).bits| == 8
  {
    ByteRange();
    hide ToBits, CeilLog2, RangeBits;
  }

  lemma {:induction false} OpenWithoutRoom(cap: nat)
    ensures var s := Open(Empty);
            && Good(s) && Matches(s, Unit) && Reports(s, Unit, cap, cap) && |Encode(s, Unit, cap).bits| == 8
  {
    hide EncOpen;
    EmptyBody();
    assert Encode(Empty, Unit, 0) == Enc([], true);
  }

  lemma ByteRange()
    ensures RangeBits(0, 255) == 8
  {
    assert Pow2(8) == 256;
    CeilLog2Bound(256, 8);
    AtLeastByte(CeilLog2(256));
  }

  lemma BothReports(x: Schema, y: Schema, v: Value, pos: nat, cap: nat)
    requires Good(Both(x, y)) && Matches(Both(x, y), v)
    ensures Good(x) && Good(y) && Matches(x, v.a) && Matches(y, v.b)
    ensures Reports(Both(x, y), v, pos, cap) <==>
              Reports(x, v.a, pos, cap) && Reports(y, v.b, Stop(pos + |Encode(x, v.a, pos).bits|, cap), cap)
  {
    hide Encode;
  }

  lemma ListOfReports(s: Schema, v: Value, pos: nat, cap: nat)
    requires s.ListOf? && Good(s) && Matches(s, v)
    ensures Good(s.item) && forall i :: 0 <= i < |v.vs| ==> Matches(s.item, v.vs[i])
    ensures var e := EncUnaligned(|v.vs|, s.lo, s.hi);
            Reports(s, v, pos, cap) <==> e.ok && ReportsList(s.item, v.vs, Stop(pos + |e.bits|, cap), cap)
  {
    hide Encode, EncUnaligned, ReportsList;
  }

  // ----- decoding -----

  function DecodeField(s: Schema, b: seq<bool>, pos: nat): Dec<Value>
    requires Good(s) && !s.Open? && !s.Both? && !s.ListOf?
  {
    match s
    case Enum(n, x, h) => var (e, p) :- DecEnum(b, pos, n, x, h); Ok(Num(e), p)
    case Unaligned(_, lb, ub) => var (n, p) :- DecUnaligned(b, pos, lb, ub); Ok(Num(n), p)
    case Aligned(t, lb, ub) => var (n, p) :- DecAligned(t, b, pos, lb, ub); Ok(Num(n), p)
    case Small => var (n, p) :- DecSmall(b, pos); Ok(Num(n), p)
    case Length => var (n, p) :- DecLength(b, pos); Ok(Num(n), p)
    case OctetString => var (o, p) :- DecOctets(b, pos); Ok(Octets(o), p)
    case FixedBitstring(n) => var (o, p) :- DecBitstring(b, pos, n); Ok(Bitstring(n, o), p)
    case DynBitstring =>
      var (n, p) :- DecLength(b, pos);
      var (o, q) :- DecBitstring(b, p, n);
      Ok(Bitstring(n, o), q)
    case ExtHeader(size, nogroups) =>
      var (g, p) :- DecExt(b, pos, size, nogroups);
      Ok(Flags(Overlay(seq(size, _ => false), g)), p)
    case Empty => Ok(Unit, pos)
  }

  function Decode(s: Schema, b: seq<bool>, pos: nat): Dec<Value>
    requires Good(s)
    decreases s, 0
  {
    match s
    case Open(body) =>
      var (len, p) :- DecLength(b, pos);
      var (v, q) :- Decode(body, b, p);
      if q <= p + 8 * len <= |b| then Ok(v, p + 8 * len) else Fail
    case Both(x, y) =>
      var (v, p) :- Decode(x, b, pos);
      var (w, q) :- Decode(y, b, p);
      Ok(Pair(v, w), q)
    case ListOf(lo, hi, item) =>
      var (n, p) :- DecUnaligned(b, pos, lo, hi);
      if n < 0 then Fail
      else
        var (vs, q) :- DecodeList(item, b, p, n);
        Ok(List(vs), q)
    case _ => DecodeField(s, b, pos)
  }

  function DecodeList(item: Schema, b: seq<bool>, pos: nat, n: nat): (d: Dec<seq<Value>>)
    requires Good(item)
    ensures d.Ok? ==> |d.val| == n
    decreases item, n + 1
  {
    if n == 0 then Ok([], pos)
    else
      var (vs, p) :- DecodeList(item, b, pos, n - 1);
      var (v, q) :- Decode(item, b, p);
      Ok(vs + [v], q)
  }

  // ----- one step of encoding and decoding -----

  lemma UnalignedOk(n: int, lb: int, ub: int)
    ensures EncUnaligned(n, lb, ub).ok <==> lb <= n <= ub
  {
  }

  lemma BitstringOk(buf: seq<byte>, nbits: nat)
    requires NofOctets(nbits) <= |buf|
    ensures EncBitstring(buf, nbits).ok <==> nbits > 0
  {
  }

  lemma ComponentsAreGood(s: Schema)
    requires Good(s)
    ensures s.Open? ==> Good(s.body)
    ensures s.Both? ==> Good(s.first) && Good(s.second)
  {
  }

  lemma OpenEncodes(body: Schema, v: Value, pos: nat)
    requires Good(Open(body)) && Matches(Open(body), v)
    ensures Good(body) && Matches(body, v)
    ensures Encode(Open(body), v, pos)
            == Enc(EncOpen(Clip(Encode(body, v, 0).bits, SIDE_BITS)).bits, Reports(body, v, 0, SIDE_BITS))
  {
    hide EncOpen, Reports;
  }

  lemma OpenDecodes(body: Schema, b: seq<bool>, pos: nat)
    requires Good(body)
    ensures Good(Open(body))
    ensures var d := DecLength(b, pos);
            Decode(Open(body), b, pos) ==
              if d.Fail? then Fail
              else
                var e, end := Decode(body, b, d.pos), d.pos + 8 * d.val;
                if e.Ok? && e.pos <= end <= |b| then Ok(e.val, end) else Fail
  {
    hide DecLength;
  }

  /** Where the body of an open-type field is found. */
  lemma {:induction false} OpenParts(b: seq<bool>, pos: nat, bits: seq<bool>) returns (p: nat)
    requires |bits| <= 8 * SIDE_BUFFER && At(b, pos, EncOpen(bits).bits)
    ensures p == pos + 8 || p == pos + 16
    ensures DecLength(b, pos) == Ok((|bits| + 7) / 8, p) && At(b, p, bits) && At(b, p + |bits|, Zeros(Pad(|bits|)))
    ensures p + |bits| <= p + 8 * ((|bits| + 7) / 8) == pos + |EncOpen(bits).bits| <= |b|
  {
    hide EncLength, DecLength;
    var n := (|bits| + 7) / 8;
    ShortLength(n);
    PadBound(|bits|);
    AtThen(b, pos, EncLength(n).bits, bits + Zeros(Pad(|bits|)));
    LengthRoundTrip(b, pos, n);
    p := pos + |EncLength(n).bits|;
    AtThen(b, p, bits, Zeros(Pad(|bits|)));
  }

  lemma BothEncodes(x: Schema, y: Schema, v: Value, q: nat)
    requires Good(Both(x, y)) && Matches(Both(x, y), v)
    ensures Good(x) && Good(y) && Matches(x, v.a) && Matches(y, v.b) && v == Pair(v.a, v.b)
    ensures var e := Encode(x, v.a, q); Encode(Both(x, y), v, q) == Then(e, Encode(y, v.b, q + |e.bits|))
  {
    hide EncEnum, EncUnaligned, EncAligned, EncSmall, EncLength, EncOctets, EncBitstring, EncExt, EncOpen, EncodeList,
      Reports, Clip;
  }

  lemma BothDecodes(x: Schema, y: Schema, b: seq<bool>, pos: nat)
    requires Good(x) && Good(y)
    ensures Good(Both(x, y))
    ensures var d := Decode(x, b, pos);
            Decode(Both(x, y), b, pos) ==
              if d.Fail? then Fail
              else
                var e := Decode(y, b, d.pos);
                if e.Ok? then Ok(Pair(d.val, e.val), e.pos) else Fail
  {
  }

  lemma ListOfEncodes(s: Schema, v: Value, q: nat)
    requires s.ListOf? && Good(s) && Matches(s, v)
    ensures v.List? && |v.vs| < TWO_32 && Good(s.item) && forall i :: 0 <= i < |v.vs| ==> Matches(s.item, v.vs[i])
    ensures GoodRange(Uint32, s.lo, s.hi) && v == List(v.vs)
    ensures var e := EncUnaligned(|v.vs|, s.lo, s.hi);
            Encode(s, v, q) == Then(e, EncodeList(s.item, v.vs, q + |e.bits|))
  {
    hide EncUnaligned, EncodeList;
  }

  lemma ListOfDecodes(s: Schema, b: seq<bool>, pos: nat)
    requires s.ListOf? && Good(s)
    ensures Good(s.item) && GoodRange(Uint32, s.lo, s.hi)
    ensures var d := DecUnaligned(b, pos, s.lo, s.hi);
            Decode(s, b, pos) ==
              if d.Fail? || d.val < 0 then Fail
              else
                var l := DecodeList(s.item, b, d.pos, d.val);
                if l.Ok? then Ok(List(l.val), l.pos) else Fail
  {
    hide DecUnaligned, DecodeList;
  }

  lemma ListEncodes(item: Schema, vs: seq<Value>, q: nat)
    requires Good(item) && forall i :: 0 <= i < |vs| ==> Matches(item, vs[i])
    ensures vs == [] ==> EncodeList(item, vs, q) == Enc([], true)
    ensures vs != [] ==>
              var e := EncodeList(item, vs[..|vs| - 1], q);
              EncodeList(item, vs, q) == Then(e, Encode(item, vs[|vs| - 1], q + |e.bits|))
  {
    hide Encode, Good, Matches;
  }

  lemma ListDecodes(item: Schema, b: seq<bool>, pos: nat, n: nat)
    requires Good(item)
    ensures DecodeList(item, b, pos, 0) == Ok([], pos)
    ensures var d := DecodeList(item, b, pos, n);
            DecodeList(item, b, pos, n + 1) ==
              if d.Fail? then Fail
              else
                var e := Decode(item, b, d.pos);
                if e.Ok? then Ok(d.val + [e.val], e.pos) else Fail
  {
    hide Decode, Good;
  }

  // ----- what arbitrary bits can decode to -----

  /** A value inside the range that its schema declares. The aligned integers are the exception: their reader
      does not check the range. */
  predicate InRange(s: Schema, v: Value)
  {
    match s
    case Enum(n, _, _) => v.Num? && 0 <= v.n < n
    case Unaligned(_, lb, ub) => v.Num? && lb <= v.n <= ub
    case Aligned(t, _, _) => v.Num? && t.Contains(v.n)
    case Small => v.Num? && 0 <= v.n <= 63
    case Length => v.Num? && 0 <= v.n <= 16383
    case OctetString => v.Octets? && |v.o| <= 16383
    case FixedBitstring(n) => v.Bitstring? && v.nbits == n && CleanBitstring(v.buf, n)
    case DynBitstring => v.Bitstring? && 0 < v.nbits <= 16383 && CleanBitstring(v.buf, v.nbits)
    case ExtHeader(size, _) => v.Flags? && |v.g| == size
    case Open(body) => InRange(body, v)
    case Empty => v.Unit?
    case Both(a, b) => v.Pair? && InRange(a, v.a) && InRange(b, v.b)
    case ListOf(lo, hi, item) => v.List? && lo <= |v.vs| <= hi && forall i :: 0 <= i < |v.vs| ==> InRange(item, v.vs[i])
  }

  lemma {:induction false} LengthBound(b: seq<bool>, pos: nat)
    ensures DecLength(b, pos).Ok? ==> DecLength(b, pos).val <= 16383
  {
    hide ToNat;
    assert Pow2(7) == 128;
    Pow2Plus8(6);
    assert Pow2(6) == 64;
  }

  lemma {:induction false} BitstringClean(b: seq<bool>, pos: nat, n: nat)
    ensures DecBitstring(b, pos, n).Ok? ==> n > 0 && CleanBitstring(DecBitstring(b, pos, n).val, n)
  {
    hide ToNat, Pow2, TakeDown;
    if DecBitstring(b, pos, n).Ok? {
      Pow2Byte(TopBitCount(n));
    }
  }

  /** Whatever the bits are, a field that decodes at all decodes to a value in its declared range. */
  lemma {:induction false} FieldInRange(s: Schema, b: seq<bool>, pos: nat)
    requires Good(s) && !s.Open? && !s.Both? && !s.ListOf?
    ensures Decode(s, b, pos).Ok? ==> InRange(s, Decode(s, b, pos).val) && pos <= Decode(s, b, pos).pos
  {
    if s.Enum? || s.Small? || s.Unaligned? || s.Aligned? {
      NumberInRange(s, b, pos);
    } else {
      hide DecLength, DecBitstring, DecSmall, U32, CleanBitstring, TakeOctets, Pow2, ToNat;
      LengthMoves(b, pos);
      LengthBound(b, pos);
      if s.FixedBitstring? {
        BitstringClean(b, pos, s.nbits);
        BitstringMoves(b, pos, s.nbits);
      } else if s.DynBitstring? && DecLength(b, pos).Ok? {
        BitstringClean(b, DecLength(b, pos).pos, DecLength(b, pos).val);
        BitstringMoves(b, DecLength(b, pos).pos, DecLength(b, pos).val);
      } else if s.ExtHeader? {
        SmallMoves(b, pos);
      }
    }
  }

  lemma {:induction false} NumberInRange(s: Schema, b: seq<bool>, pos: nat)
    requires Good(s) && (s.Enum? || s.Small? || s.Unaligned? || s.Aligned?)
    ensures Decode(s, b, pos).Ok? ==> InRange(s, Decode(s, b, pos).val) && pos <= Decode(s, b, pos).pos
  {
    hide DecSmall, CeilLog2, Pow2, ToNat;
    SmallBound(b, pos);
    SmallMoves(b, pos);
    SmallMoves(b, pos + 1);
    if s.Aligned? {
      hide s.t.Wrap;
    }
  }

  lemma LengthMoves(b: seq<bool>, pos: nat)
    ensures DecLength(b, pos).Ok? ==> pos < DecLength(b, pos).pos
  {
    hide ToNat;
  }

  lemma SmallMoves(b: seq<bool>, pos: nat)
    ensures DecSmall(b, pos).Ok? ==> pos < DecSmall(b, pos).pos
  {
    hide ToNat;
  }

  lemma BitstringMoves(b: seq<bool>, pos: nat, n: nat)
    ensures DecBitstring(b, pos, n).Ok? ==> pos < DecBitstring(b, pos, n).pos
  {
    hide ToNat, TakeDown;
  }

  /** Whatever the bits are, a message that decodes at all decodes to values in their declared ranges,
      at or behind the place where it starts. */
  lemma {:induction false} DecodedInRange(s: Schema, b: seq<bool>, pos: nat)
    requires Good(s) && Decode(s, b, pos).Ok?
    ensures InRange(s, Decode(s, b, pos).val) && pos <= Decode(s, b, pos).pos
    decreases s, 1
  {
    if s.Open? {
      hide DecLength;
      LengthMoves(b, pos);
      DecodedInRange(s.body, b, DecLength(b, pos).pos);
    } else if s.Both? {
      DecodedInRange(s.first, b, pos);
      DecodedInRange(s.second, b, Decode(s.first, b, pos).pos);
    } else if s.ListOf? {
      hide DecBits, CeilLog2, DecodeList;
      var d := DecUnaligned(b, pos, s.lo, s.hi);
      CountMoves(b, pos, s.lo, s.hi);
      ListInRange(s.item, b, d.pos, d.val);
    } else {
      FieldInRange(s, b, pos);
    }
  }

  lemma CountMoves(b: seq<bool>, pos: nat, lo: int, hi: int)
    ensures DecUnaligned(b, pos, lo, hi).Ok? ==>
              lo <= DecUnaligned(b, pos, lo, hi).val <= hi && pos <= DecUnaligned(b, pos, lo, hi).pos
  {
    hide ToNat, CeilLog2;
  }

  lemma {:induction false} ListInRange(item: Schema, b: seq<bool>, pos: nat, n: nat)
    requires Good(item) && DecodeList(item, b, pos, n).Ok?
    ensures var d := DecodeList(item, b, pos, n);
            pos <= d.pos && forall i :: 0 <= i < n ==> InRange(item, d.val[i])
    decreases item, n + 2
  {
    hide Decode, InRange, Good;
    if n > 0 {
      ListInRange(item, b, pos, n - 1);
      DecodedInRange(item, b, DecodeList(item, b, pos, n - 1).pos);
    }
  }
}
