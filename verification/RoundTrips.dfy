/** When a message that was packed can be read back. */
module RoundTrips {
  import opened Bits
  import opened BitCursor
  import opened Integers
  import opened Lengths
  import opened Strings
  import opened ExtGroups
  import opened OpenField
  import opened Schema
  import opened Locality

  /** A schema some of whose fields are placed on byte boundaries. */
  predicate HasAligned(s: Schema)
  {
    match s
    case Aligned(_, lb, ub) => InOctets(lb, ub)
    case Open(body) => HasAligned(body)
    case Both(a, b) => HasAligned(a) || HasAligned(b)
    case ListOf(_, _, item) => HasAligned(item)
    case _ => false
  }

  /** Writer and reader agree on the byte boundaries: an open-type field whose body depends on them starts on one.
      That is needed because the body is written at the start of the side buffer but read in place. */
  predicate Grounded(s: Schema, v: Value, pos: nat)
    requires Good(s) && Matches(s, v)
    decreases s, 0
  {
    match s
    case Open(body) => (HasAligned(body) ==> pos % 8 == 0) && Grounded(body, v, 0)
    case Both(a, b) => Grounded(a, v.a, pos) && Grounded(b, v.b, pos + |Encode(a, v.a, pos).bits|)
    case ListOf(lo, hi, item) => GroundedList(item, v.vs, pos + |EncUnaligned(|v.vs|, lo, hi).bits|)
    case _ => true
  }

  predicate GroundedList(item: Schema, vs: seq<Value>, pos: nat)
    requires Good(item) && forall i :: 0 <= i < |vs| ==> Matches(item, vs[i])
    decreases item, |vs| + 1
  {
    vs != [] ==>
      var init := vs[..|vs| - 1];
      GroundedList(item, init, pos) && Grounded(item, vs[|vs| - 1], pos + |EncodeList(item, init, pos).bits|)
  }

  /** The body of every open-type field fits its side buffer. */
  predicate Sized(s: Schema, v: Value)
    requires Good(s) && Matches(s, v)
    decreases s, 0
  {
    match s
    case Open(body) => |Encode(body, v, 0).bits| <= SIDE_BITS && Sized(body, v)
    case Both(a, b) => Sized(a, v.a) && Sized(b, v.b)
    case ListOf(lo, hi, item) => SizedList(item, v.vs)
    case _ => true
  }

  predicate SizedList(item: Schema, vs: seq<Value>)
    requires Good(item) && forall i :: 0 <= i < |vs| ==> Matches(item, vs[i])
    decreases item, |vs| + 1
  {
    vs != [] ==> SizedList(item, vs[..|vs| - 1]) && Sized(item, vs[|vs| - 1])
  }

  /** The encoding holds all of the message: the numbers that the encoder does not check are within the stored width,
      and bit strings have no stray bits. */
  predicate Kept(s: Schema, v: Value)
    requires Good(s) && Matches(s, v)
    decreases s, 0
  {
    match s
    case Aligned(t, lb, ub) => (v.n - lb) % t.Modulus() < Pow2(RangeBits(lb, ub))
    case FixedBitstring(n) => CleanBitstring(v.buf, n)
    case DynBitstring => CleanBitstring(v.buf, v.nbits)
    case Open(body) => Kept(body, v)
    case Both(a, b) => Kept(a, v.a) && Kept(b, v.b)
    case ListOf(lo, hi, item) => KeptList(item, v.vs)
    case _ => true
  }

  predicate KeptList(item: Schema, vs: seq<Value>)
    requires Good(item) && forall i :: 0 <= i < |vs| ==> Matches(item, vs[i])
    decreases item, |vs| + 1
  {
    vs != [] ==> KeptList(item, vs[..|vs| - 1]) && Kept(item, vs[|vs| - 1])
  }

  /** Something is decoded exactly if sized. It ends at a position, and it is v exactly if kept. */
  predicate ReadsBack<T(==)>(d: Dec<T>, v: T, end: nat, sized: bool, kept: bool)
  {
    (d.Ok? <==> sized) && (sized ==> d.pos == end && (d.val == v <==> kept))
  }

  /** Two positions that look the same to a schema. */
  predicate SamePlace(s: Schema, p: nat, q: nat)
  {
    HasAligned(s) ==> p % 8 == q % 8
  }

  /** The message v, encoded for position q, is found at position pos of b. */
  ghost predicate Placed(s: Schema, v: Value, q: nat, b: seq<bool>, pos: nat) {
    && Good(s) && Matches(s, v) && Grounded(s, v, q) && SamePlace(s, pos, q)
    && Encode(s, v, q).ok && At(b, pos, Encode(s, v, q).bits)
  }

  /** The round trip of whole messages: what was encoded for position q is decoded from position pos of any bit
      sequence that contains it exactly if the bodies of open-type fields fit their side buffers. It ends where the
      writer did, and it is the message exactly if the encoding holds all of it. */
  lemma {:induction false} RoundTrip(s: Schema, v: Value, q: nat, b: seq<bool>, pos: nat)
    requires Placed(s, v, q, b, pos)
    ensures ReadsBack(Decode(s, b, pos), v, pos + |Encode(s, v, q).bits|, Sized(s, v), Kept(s, v))
    decreases s, 1
  {
    hide Encode, Decode, Grounded, Sized, Kept, At, SamePlace;
    if s.Open? {
      OpenRoundTrip(s, v, q, b, pos);
    } else if s.Both? {
      BothRoundTrip(s, v, q, b, pos);
    } else if s.ListOf? {
      ListOfRoundTrip(s, v, q, b, pos);
    } else {
      FieldRoundTrip(s, v, q, b, pos);
    }
  }

  lemma {:induction false} FieldRoundTrip(s: Schema, v: Value, q: nat, b: seq<bool>, pos: nat)
    requires Placed(s, v, q, b, pos) && !s.Open? && !s.Both? && !s.ListOf?
    ensures ReadsBack(Decode(s, b, pos), v, pos + |Encode(s, v, q).bits|, Sized(s, v), Kept(s, v))
  {
    if s.Enum? || s.Small? || s.Length? || s.Unaligned? || s.Aligned? {
      NumberRoundTrip(s, v, q, b, pos);
    } else if s.DynBitstring? {
      DynBitstringRoundTrip(s, v, q, b, pos);
    } else {
      hide EncOctets, DecOctets, EncBitstring, DecBitstring, EncExt, DecExt, CleanBitstring, Overlay, LastSet;
      match s {
        case OctetString => OctetsRoundTrip(b, pos, v.o);
        case FixedBitstring(n) => BitstringOk(v.buf, n); BitstringRoundTrip(b, pos, v.buf, n);
        case ExtHeader(_, nogroups) => ExtRoundTrip(b, pos, v.g, nogroups);
        case Empty =>
      }
    }
  }

  lemma {:induction false} NumberRoundTrip(s: Schema, v: Value, q: nat, b: seq<bool>, pos: nat)
    requires Placed(s, v, q, b, pos) && (s.Enum? || s.Small? || s.Length? || s.Unaligned? || s.Aligned?)
    ensures ReadsBack(Decode(s, b, pos), v, pos + |Encode(s, v, q).bits|, Sized(s, v), Kept(s, v))
  {
    hide EncEnum, DecEnum, EncUnaligned, DecUnaligned, EncAligned, DecAligned, EncSmall, DecSmall, EncLength, DecLength,
      U32, Pow2, CeilLog2;
    match s {
      case Enum(n, x, h) => EnumRoundTrip(b, pos, v.n, n, x, h);
      case Unaligned(_, lb, ub) => UnalignedOk(v.n, lb, ub); UnalignedRoundTrip(b, pos, v.n, lb, ub);
      case Aligned(t, lb, ub) => AlignedRoundTrip(t, b, pos, q, v.n, lb, ub);
      case Small => SmallRoundTrip(b, pos, v.n);
      case Length => LengthRoundTrip(b, pos, v.n);
    }
  }

  lemma DynBitstringParts(v: Value, q: nat, b: seq<bool>, pos: nat)
    requires Matches(DynBitstring, v)
    ensures v.Bitstring? && v.nbits < TWO_32 && |v.buf| == NofOctets(v.nbits)
    ensures Encode(DynBitstring, v, q) == Then(EncLength(v.nbits), EncBitstring(v.buf, v.nbits))
    ensures Sized(DynBitstring, v) && (Kept(DynBitstring, v) <==> CleanBitstring(v.buf, v.nbits))
    ensures var d := DecLength(b, pos);
            Decode(DynBitstring, b, pos) ==
              if d.Fail? then Fail
              else
                var e := DecBitstring(b, d.pos, d.val);
                if e.Ok? then Ok(Bitstring(d.val, e.val), e.pos) else Fail
  {
    hide EncLength, DecLength, EncBitstring, DecBitstring, CleanBitstring, NofOctets;
  }

  lemma {:induction false} DynBitstringRoundTrip(s: Schema, v: Value, q: nat, b: seq<bool>, pos: nat)
    requires Placed(s, v, q, b, pos) && s.DynBitstring?
    ensures ReadsBack(Decode(s, b, pos), v, pos + |Encode(s, v, q).bits|, Sized(s, v), Kept(s, v))
  {
    hide EncLength, DecLength, EncBitstring, DecBitstring, CleanBitstring, NofOctets, At, Encode, Decode, Grounded,
      Sized, Kept, Good, Matches, HasAligned;
    DynBitstringParts(v, q, b, pos);
    BitstringOk(v.buf, v.nbits);
    AtThen(b, pos, EncLength(v.nbits).bits, EncBitstring(v.buf, v.nbits).bits);
    LengthRoundTrip(b, pos, v.nbits);
    BitstringRoundTrip(b, pos + |EncLength(v.nbits).bits|, v.buf, v.nbits);
  }

  lemma OpenConditions(body: Schema, v: Value, pos: nat)
    requires Good(Open(body)) && Matches(Open(body), v)
    ensures Good(body) && Matches(body, v)
    ensures Grounded(Open(body), v, pos) <==> (HasAligned(body) ==> pos % 8 == 0) && Grounded(body, v, 0)
    ensures Sized(Open(body), v) <==> |Encode(body, v, 0).bits| <= SIDE_BITS && Sized(body, v)
    ensures Kept(Open(body), v) <==> Kept(body, v)
    ensures HasAligned(Open(body)) <==> HasAligned(body)
  {
    hide Encode;
  }

  lemma {:induction false} OpenRoundTrip(s: Schema, v: Value, q: nat, b: seq<bool>, pos: nat)
    requires Placed(s, v, q, b, pos) && s.Open?
    ensures ReadsBack(Decode(s, b, pos), v, pos + |Encode(s, v, q).bits|, Sized(s, v), Kept(s, v))
    decreases s, 0
  {
    hide EncOpen, DecLength, At, Encode, Decode, Grounded, Sized, Kept, Good, Matches, HasAligned, Reports, Clip;
    OpenEncodes(s.body, v, q);
    OpenConditions(s.body, v, q);
    ReportsAccepted(s.body, v, 0, SIDE_BITS);
    var bits := Encode(s.body, v, 0).bits;
    var p := OpenParts(b, pos, Clip(bits, SIDE_BITS));
    OpenDecodes(s.body, b, pos);
    if |bits| <= SIDE_BITS {
      RoundTrip(s.body, v, 0, b, p);
    } else {
      ClipsFull(bits);
      CutOff(s.body, v, b, p);
    }
  }

  lemma ClipsFull(bits: seq<bool>)
    requires |bits| > SIDE_BITS
    ensures Clip(bits, SIDE_BITS) == bits[..SIDE_BITS] && (|bits[..SIDE_BITS]| + 7) / 8 * 8 == SIDE_BITS
  {
  }

  /** A body that is cut off is not decoded within what is left of it, whatever follows: with what is missing it
      would have to be decoded to the same end. */
  lemma {:induction false} CutOff(body: Schema, v: Value, b: seq<bool>, p: nat)
    requires Good(body) && Matches(body, v) && Grounded(body, v, 0) && SamePlace(body, p, 0) && Encode(body, v, 0).ok
    requires |Encode(body, v, 0).bits| > SIDE_BITS && At(b, p, Encode(body, v, 0).bits[..SIDE_BITS])
    ensures Decode(body, b, p).Ok? ==> Decode(body, b, p).pos > p + SIDE_BITS
    decreases body, 2
  {
    hide Encode, Decode, Grounded, Sized, Kept, Good, Matches, SamePlace;
    var bits, d := Encode(body, v, 0).bits, Decode(body, b, p);
    if d.Ok? && d.pos <= p + SIDE_BITS {
      var c := Completed(b, p, bits, d.pos);
      RoundTrip(body, v, 0, c, p);
      Local(body, b, c, p);
    }
  }

  /** What is there of the bits, and the rest of them. */
  lemma Completed(b: seq<bool>, p: nat, bits: seq<bool>, q: nat) returns (c: seq<bool>)
    requires |bits| > SIDE_BITS && At(b, p, bits[..SIDE_BITS]) && q <= p + SIDE_BITS
    ensures At(c, p, bits) && Agree(b, c, q)
  {
    c := b[..p + SIDE_BITS] + bits[SIDE_BITS..];
    assert c[p..p + |bits|] == b[p..p + SIDE_BITS] + bits[SIDE_BITS..] == bits;
    assert c[..q] == b[..q];
  }

  lemma BothConditions(x: Schema, y: Schema, v: Value, q: nat)
    requires Good(Both(x, y)) && Matches(Both(x, y), v)
    ensures Good(x) && Good(y) && Matches(x, v.a) && Matches(y, v.b)
    ensures Grounded(Both(x, y), v, q) <==> Grounded(x, v.a, q) && Grounded(y, v.b, q + |Encode(x, v.a, q).bits|)
    ensures Sized(Both(x, y), v) <==> Sized(x, v.a) && Sized(y, v.b)
    ensures Kept(Both(x, y), v) <==> Kept(x, v.a) && Kept(y, v.b)
    ensures HasAligned(Both(x, y)) <==> HasAligned(x) || HasAligned(y)
  {
    hide Encode;
  }

  lemma {:induction false} BothRoundTrip(s: Schema, v: Value, q: nat, b: seq<bool>, pos: nat)
    requires Placed(s, v, q, b, pos) && s.Both?
    ensures ReadsBack(Decode(s, b, pos), v, pos + |Encode(s, v, q).bits|, Sized(s, v), Kept(s, v))
    decreases s, 0
  {
    hide At, Encode, Decode, Grounded, Sized, Kept, Good, Matches, HasAligned;
    var x, y := s.first, s.second;
    BothEncodes(x, y, v, q);
    BothConditions(x, y, v, q);
    var e := Encode(x, v.a, q);
    AtThen(b, pos, e.bits, Encode(y, v.b, q + |e.bits|).bits);
    RoundTrip(x, v.a, q, b, pos);
    RoundTrip(y, v.b, q + |e.bits|, b, pos + |e.bits|);
    BothDecodes(x, y, b, pos);
  }

  lemma ListOfConditions(s: Schema, v: Value, q: nat)
    requires s.ListOf? && Good(s) && Matches(s, v)
    ensures v.List? && Good(s.item) && forall i :: 0 <= i < |v.vs| ==> Matches(s.item, v.vs[i])
    ensures Grounded(s, v, q) <==> GroundedList(s.item, v.vs, q + |EncUnaligned(|v.vs|, s.lo, s.hi).bits|)
    ensures Sized(s, v) <==> SizedList(s.item, v.vs)
    ensures Kept(s, v) <==> KeptList(s.item, v.vs)
    ensures HasAligned(s) <==> HasAligned(s.item)
  {
    hide EncUnaligned, GroundedList, SizedList, KeptList;
  }

  lemma {:induction false} ListOfRoundTrip(s: Schema, v: Value, q: nat, b: seq<bool>, pos: nat)
    requires Placed(s, v, q, b, pos) && s.ListOf?
    ensures ReadsBack(Decode(s, b, pos), v, pos + |Encode(s, v, q).bits|, Sized(s, v), Kept(s, v))
    decreases s, 0
  {
    hide At, EncUnaligned, DecUnaligned, EncodeList, DecodeList, GroundedList, SizedList, KeptList, Encode, Decode,
      Grounded, Sized, Kept, Good, Matches, HasAligned;
    ListOfEncodes(s, v, q);
    ListOfConditions(s, v, q);
    ListOfDecodes(s, b, pos);
    var n := |v.vs|;
    var e := EncUnaligned(n, s.lo, s.hi);
    UnalignedOk(n, s.lo, s.hi);
    AtThen(b, pos, e.bits, EncodeList(s.item, v.vs, q + |e.bits|).bits);
    UnalignedRoundTrip(b, pos, n, s.lo, s.hi);
    ListRoundTrip(s.item, v.vs, q + |e.bits|, b, pos + |e.bits|);
  }

  lemma ListConditions(item: Schema, vs: seq<Value>, q: nat)
    requires Good(item) && vs != [] && forall i :: 0 <= i < |vs| ==> Matches(item, vs[i])
    ensures var init, last := vs[..|vs| - 1], vs[|vs| - 1];
            && (GroundedList(item, vs, q) <==>
                  GroundedList(item, init, q) && Grounded(item, last, q + |EncodeList(item, init, q).bits|))
            && (SizedList(item, vs) <==> SizedList(item, init) && Sized(item, last))
            && (KeptList(item, vs) <==> KeptList(item, init) && Kept(item, last))
  {
    hide EncodeList, Grounded, Sized, Kept, Good, Matches;
  }

  lemma EmptyConditions(item: Schema, q: nat)
    requires Good(item)
    ensures GroundedList(item, [], q) && SizedList(item, []) && KeptList(item, [])
  {
  }

  lemma SameItems(x: seq<Value>, y: seq<Value>, a: Value, b: Value)
    ensures x + [a] == y + [b] <==> x == y && a == b
  {
    if x + [a] == y + [b] {
      assert (x + [a])[..|x|] == x && (y + [b])[..|y|] == y && (x + [a])[|x|] == a && (y + [b])[|y|] == b;
    }
  }

  /** Items and one more. */
  lemma ItemsReadBack(d: Dec<seq<Value>>, e: Dec<Value>, init: seq<Value>, last: Value, mid: nat, end: nat,
                      sized: bool, kept: bool, lastSized: bool, lastKept: bool)
    requires ReadsBack(d, init, mid, sized, kept) && (d.Ok? ==> ReadsBack(e, last, end, lastSized, lastKept))
    ensures var all := if d.Ok? && e.Ok? then Ok(d.val + [e.val], e.pos) else Fail;
            ReadsBack(all, init + [last], end, sized && lastSized, kept && lastKept)
  {
    if d.Ok? && e.Ok? {
      SameItems(d.val, init, e.val, last);
    }
  }

  lemma {:induction false} ListRoundTrip(item: Schema, vs: seq<Value>, q: nat, b: seq<bool>, pos: nat)
    requires Good(item) && (forall i :: 0 <= i < |vs| ==> Matches(item, vs[i])) && GroundedList(item, vs, q)
    requires SamePlace(item, pos, q)
    requires EncodeList(item, vs, q).ok && At(b, pos, EncodeList(item, vs, q).bits)
    ensures ReadsBack(DecodeList(item, b, pos, |vs|), vs, pos + |EncodeList(item, vs, q).bits|,
                      SizedList(item, vs), KeptList(item, vs))
    decreases item, |vs| + 2
  {
    hide At, Encode, Decode, Grounded, Sized, Kept, Good, Matches, HasAligned, EncodeList, DecodeList,
      GroundedList, SizedList, KeptList;
    ListEncodes(item, vs, q);
    if vs == [] {
      EmptyConditions(item, q);
      ListDecodes(item, b, pos, 0);
    } else {
      var init, last := vs[..|vs| - 1], vs[|vs| - 1];
      var e := EncodeList(item, init, q);
      var mid := pos + |e.bits|;
      ListConditions(item, vs, q);
      AtThen(b, pos, e.bits, Encode(item, last, q + |e.bits|).bits);
      ListRoundTrip(item, init, q, b, pos);
      RoundTrip(item, last, q + |e.bits|, b, mid);
      ListDecodes(item, b, pos, |init|);
      assert init + [last] == vs;
      ItemsReadBack(DecodeList(item, b, pos, |init|), Decode(item, b, mid), init, last, mid,
                    pos + |EncodeList(item, vs, q).bits|,
                    SizedList(item, init), KeptList(item, init), Sized(item, last), Kept(item, last));
    }
  }

  // ----- how much an open-type field holds -----

  lemma {:induction false} StringConditions(o: seq<byte>, pos: nat)
    requires |o| < TWO_32
    ensures Good(Open(OctetString)) && Matches(Open(OctetString), Octets(o))
    ensures Encode(OctetString, Octets(o), 0) == EncOctets(o)
    ensures EncOctets(o).ok <==> |o| < 16383
    ensures EncOctets(o).ok ==> |EncOctets(o).bits| == (if |o| < 128 then 8 else 16) + 8 * |o|
    ensures Reports(OctetString, Octets(o), 0, SIDE_BITS) <==> EncOctets(o).ok && |EncOctets(o).bits| <= 8192
    ensures Grounded(Open(OctetString), Octets(o), pos) && SamePlace(Open(OctetString), pos, pos)
    ensures Kept(Open(OctetString), Octets(o))
  {
    hide ToBits, BitsOf;
  }

  /** An octet string in an open-type field is accepted, and comes back, exactly up to 1022 octets: with its own length
      it then fills the 1024 octets of the side buffer. */
  lemma {:induction false} LongestString(o: seq<byte>, b: seq<bool>, pos: nat)
    requires |o| < TWO_32
    ensures var s, v := Open(OctetString), Octets(o);
            && Good(s) && Matches(s, v)
            && var e := Encode(s, v, pos);
               && (e.ok <==> |o| <= 1022)
               && (|o| <= 1022 && At(b, pos, e.bits) ==> Decode(s, b, pos) == Ok(v, pos + |e.bits|))
  {
    StringConditions(o, pos);
    hide Encode, Decode, Reports, Grounded, Sized, Kept, Good, Matches, Clip, EncOpen, EncOctets, At, SamePlace,
      HasAligned;
    var s, v := Open(OctetString), Octets(o);
    OpenEncodes(OctetString, v, pos);
    if |o| <= 1022 && At(b, pos, Encode(s, v, pos).bits) {
      OpenConditions(OctetString, v, pos);
      StringIsSized(v);
      RoundTrip(s, v, pos, b, pos);
    }
  }

  lemma StringIsSized(v: Value)
    requires Matches(OctetString, v)
    ensures Sized(OctetString, v)
  {
  }

  // ----- a message that is lost -----

  /** An open-type field around two octet strings, the second in an open-type field of its own. */
  const TWO_STRINGS: Schema := Open(Both(OctetString, Open(OctetString)))

  lemma TwoGood(o: seq<byte>, w: seq<byte>)
    requires |o| == |w| == 600
    ensures Good(TWO_STRINGS) && Matches(TWO_STRINGS, Pair(Octets(o), Octets(w)))
  {
    assert Matches(Open(OctetString), Octets(w));
    assert Matches(TWO_STRINGS.body, Pair(Octets(o), Octets(w)));
  }

  lemma {:induction false} StringSize(o: seq<byte>)
    requires |o| == 600
    ensures EncOctets(o).ok && |EncOctets(o).bits| == 4816
    ensures Encode(OctetString, Octets(o), 0) == EncOctets(o) && Reports(OctetString, Octets(o), 0, SIDE_BITS)
  {
    hide ToBits, BitsOf;
  }

  lemma {:induction false} StringField(o: seq<byte>, pos: nat)
    requires |o| == 600
    ensures Encode(Open(OctetString), Octets(o), pos).ok && |Encode(Open(OctetString), Octets(o), pos).bits| == 4832
    ensures Reports(Open(OctetString), Octets(o), pos, SIDE_BITS)
  {
    hide EncOctets, ToBits, BitsOf;
    StringSize(o);
  }

  /** Two strings of 600 octets each are accepted, wherever such a message is packed, but their 9648 bits do not fit the
      side buffer, and what is sent is not decoded, whatever follows. */
  lemma {:induction false} LostMessage(o: seq<byte>, w: seq<byte>, b: seq<bool>, pos: nat)
    requires |o| == |w| == 600
    ensures var v := Pair(Octets(o), Octets(w));
            && Good(TWO_STRINGS) && Matches(TWO_STRINGS, v)
            && Encode(TWO_STRINGS, v, pos).ok && |Encode(TWO_STRINGS.body, v, 0).bits| == 9648
            && (At(b, pos, Encode(TWO_STRINGS, v, pos).bits) ==> Decode(TWO_STRINGS, b, pos).Fail?)
  {
    hide Encode, Decode, Reports, Grounded, Sized, Kept, Good, Matches, Clip, EncOpen, EncOctets, At, SamePlace,
      HasAligned;
    var v := Pair(Octets(o), Octets(w));
    TwoGood(o, w);
    OpenEncodes(TWO_STRINGS.body, v, pos);
    BothEncodes(OctetString, Open(OctetString), v, 0);
    BothReports(OctetString, Open(OctetString), v, 0, SIDE_BITS);
    StringSize(o);
    StringField(w, 4816);
    OpenConditions(TWO_STRINGS.body, v, pos);
    TwoGrounded(v, pos);
    if At(b, pos, Encode(TWO_STRINGS, v, pos).bits) {
      RoundTrip(TWO_STRINGS, v, pos, b, pos);
    }
  }

  lemma TwoGrounded(v: Value, pos: nat)
    requires Good(TWO_STRINGS) && Matches(TWO_STRINGS, v)
    ensures Grounded(TWO_STRINGS, v, pos) && SamePlace(TWO_STRINGS, pos, pos)
  {
    hide Encode;
  }
}
