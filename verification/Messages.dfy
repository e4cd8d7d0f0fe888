/** Packing and unpacking whole messages through the cursor. */
module Messages {
  import opened Bits
  import opened BitCursor
  import opened Integers
  import opened Lengths
  import opened Strings
  import opened ExtGroups
  import opened OpenField
  import opened Readers
  import opened RoundTrips
  import opened Schema

  /** The outcome of packing a message: its bits are appended, and success is reported exactly if r. That is never
      so for a message that the encoders refuse, and always for an accepted one that fits. */
  ghost predicate Packs(s: Snap, t: Snap, e: Enc, r: bool, code: Code) {
    && Appends(s, t, e)
    && (code == Success <==> r)
    && (r ==> e.ok)
    && (e.ok && Fits(s, e) ==> r)
  }

  lemma EmitsPacks(s: Snap, t: Snap, e: Enc, code: Code)
    requires Emits(s, t, e, code)
    ensures Packs(s, t, e, e.ok && s.pos + |e.bits| <= s.Cap(), code)
  {
    hide Appends;
  }

  /** The next field is packed where the last one ended; when the last one overflowed the buffer unnoticed,
      that is not the place the specification gives it, but then nothing of it is written. */
  lemma PacksNext(s: Snap, t: Snap, u: Snap, a: Enc, b: Enc, c: Enc, r: bool, code: Code)
    requires Packs(s, t, a, true, Success) && Packs(t, u, c, r, code)
    requires b.ok == c.ok && (t.pos == s.pos + |a.bits| ==> c == b)
    ensures Packs(s, u, Then(a, b), r, code)
  {
    hide BitsOf, Clip;
    AppendsPos(s, t, a);
    if Fits(s, a) {
      AppendsThen(s, t, u, a, b);
    } else {
      AppendsNothing(s, t, u, a, c);
      AppendsOverflow(s, u, a, Then(a, b));
    }
  }

  lemma AppendsNothing(s: Snap, t: Snap, u: Snap, a: Enc, c: Enc)
    requires Appends(s, t, a) && Appends(t, u, c) && t.pos == t.Cap()
    ensures Appends(s, u, a)
  {
    hide BitsOf;
    AppendsPos(t, u, c);
    assert (t.Written() + c.bits)[..t.Cap()] == t.Written();
  }

  /** Nothing is written after a failure. */
  lemma PacksStop(s: Snap, t: Snap, a: Enc, b: Enc, code: Code)
    requires Packs(s, t, a, false, code)
    ensures Packs(s, t, Then(a, b), false, code)
  {
    hide Appends;
    if a.ok {
      AppendsOverflow(s, t, a, Then(a, b));
    }
  }

  lemma AppendsOverflow(s: Snap, t: Snap, a: Enc, b: Enc)
    requires Appends(s, t, a) && !Fits(s, a) && a.bits <= b.bits
    ensures Appends(s, t, b) && !Fits(s, b)
  {
    var w := s.Written();
    assert (w + a.bits)[..s.Cap()] == (w + b.bits)[..s.Cap()];
  }

  /** Packs one message. */
  method PackValue(bref: BitRef, s: Schema, v: Value) returns (code: Code)
    requires bref.Valid() && Good(s) && Matches(s, v)
    modifies bref, bref.buffer
    ensures bref.Valid() && bref.buffer == old(bref.buffer) && bref.max == old(bref.max)
    ensures var s0, t0 := old(bref.State()), bref.State();
            Packs(s0, t0, Encode(s, v, s0.pos), Reports(s, v, s0.pos, s0.Cap()), code)
    decreases s, 1
  {
    hide Packs, Encode, Reports, Matches, Good;
    if s.Open? {
      code := PackOpen(bref, s, v);
    } else if s.Both? {
      code := PackBoth(bref, s, v);
    } else if s.ListOf? {
      code := PackListOf(bref, s, v);
    } else {
      code := PackField(bref, s, v);
    }
  }

  method PackField(bref: BitRef, s: Schema, v: Value) returns (code: Code)
    requires bref.Valid() && Good(s) && Matches(s, v) && !s.Open? && !s.Both? && !s.ListOf?
    modifies bref`ptr, bref`offset, bref.buffer
    ensures bref.Valid()
    ensures var s0, t0 := old(bref.State()), bref.State();
            Packs(s0, t0, Encode(s, v, s0.pos), Reports(s, v, s0.pos, s0.Cap()), code)
    decreases s, 0
  {
    hide Packs, EncEnum, EncUnaligned, EncAligned, EncSmall, EncLength, EncOctets, EncBitstring, EncExt, U32,
      Emits, Appends, LastSet;
    ghost var s0, p := bref.State(), bref.State().pos;
    match s {
      case Enum(n, x, h) => code := PackEnum(bref, v.n, n, x, h);
      case Unaligned(t, lb, ub) =>
        code := PackUnaligned(bref, t, v.n, lb, ub);
        UnalignedPacks(s0, bref.State(), EncUnaligned(v.n, lb, ub), code);
        return;
      case Aligned(t, lb, ub) => code := PackAligned(bref, t, v.n, lb, ub);
      case Small => code := PackSmall(bref, v.n);
      case Length => code := PackLength(bref, v.n);
      case OctetString => code := PackOctetField(bref, v.o);
      case FixedBitstring(n) => code := PackBitstringField(bref, v.buf, n);
      case DynBitstring => code := PackDynBitstring(bref, v.buf, v.nbits);
      case ExtHeader(size, nogroups) => code := PackExtField(bref, v.g, nogroups);
      case Empty => code := Success; EmitsNothing(s0);
    }
    EmitsPacks(s0, bref.State(), Encode(s, v, p), code);
    FieldReports(s, v, p, s0.Cap());
  }

  lemma UnalignedPacks(s: Snap, t: Snap, e: Enc, code: Code)
    requires Appends(s, t, e) && code == if e.ok then Success else EncodeFail
    ensures Packs(s, t, e, e.ok, code)
  {
  }

  method PackOctetField(bref: BitRef, o: seq<byte>) returns (code: Code)
    requires bref.Valid() && |o| < TWO_32
    modifies bref`ptr, bref`offset, bref.buffer
    ensures bref.Valid()
    ensures Emits(old(bref.State()), bref.State(), EncOctets(o), code)
  {
    hide Emits, EncOctets;
    var str := new DynOctstring(|o|);
    str.octets := new byte[|o|](i requires 0 <= i < |o| => o[i]);
    assert str.octets[..] == o;
    code := str.Pack(bref);
  }

  method PackBitstringField(bref: BitRef, o: seq<byte>, nbits: nat) returns (code: Code)
    requires bref.Valid() && NofOctets(nbits) <= |o|
    modifies bref`ptr, bref`offset, bref.buffer
    ensures bref.Valid() && code != DecodeFail
    ensures Emits(old(bref.State()), bref.State(), EncBitstring(o, nbits), code)
  {
    hide Emits, EncBitstring;
    var buf := new byte[|o|](i requires 0 <= i < |o| => o[i]);
    assert buf[..] == o;
    code := PackBitstring(bref, buf, nbits);
  }

  /** A bit string of any length, without declared bounds. */
  method PackDynBitstring(bref: BitRef, o: seq<byte>, nbits: u32) returns (code: Code)
    requires bref.Valid() && NofOctets(nbits) <= |o|
    modifies bref`ptr, bref`offset, bref.buffer
    ensures bref.Valid()
    ensures Emits(old(bref.State()), bref.State(), Then(EncLength(nbits), EncBitstring(o, nbits)), code)
  {
    hide Emits, EncLength, EncBitstring;
    ghost var s := bref.State();
    code := PackLength(bref, nbits);
    if code != Success {
      EmitsRefused(s, bref.State(), EncLength(nbits), EncBitstring(o, nbits), code);
      return code;
    }
    ghost var t := bref.State();
    code := PackBitstringField(bref, o, nbits);
    EmitsThen(s, t, bref.State(), EncLength(nbits), EncBitstring(o, nbits), code);
  }

  method PackExtField(bref: BitRef, g: seq<bool>, nofNogroups: u32) returns (code: Code)
    requires bref.Valid() && |g| <= 20
    modifies bref`ptr, bref`offset, bref.buffer
    ensures bref.Valid()
    ensures Emits(old(bref.State()), bref.State(), EncExt(g, nofNogroups), code)
  {
    hide Emits, EncExt;
    var h := new ExtGroupsHeader(|g|, nofNogroups);
    assert |h.groups[..]| == |g|;
    forall i | 0 <= i < |g| {
      h.groups[i] := g[i];
    }
    assert h.groups[..] == g;
    code := h.Pack(bref);
  }

  method PackOpen(bref: BitRef, s: Schema, v: Value) returns (code: Code)
    requires bref.Valid() && Good(s) && Matches(s, v) && s.Open?
    modifies bref, bref.buffer
    ensures bref.Valid() && bref.buffer == old(bref.buffer) && bref.max == old(bref.max)
    ensures var s0, t0 := old(bref.State()), bref.State();
            Packs(s0, t0, Encode(s, v, s0.pos), Reports(s, v, s0.pos, s0.Cap()), code)
    decreases s, 0
  {
    hide Packs, Encode, Reports, Emits, Appends, EncOpen, Clip;
    ghost var s0 := bref.State();
    var guard := new PackGuard(bref);
    ghost var t0 := bref.State();
    code := PackValue(bref, s.body, v);
    ghost var body := bref.State().Written();
    OpenEncodes(s.body, v, s0.pos);
    OpenReports(s.body, v, s0.pos, s0.Cap());
    SideBody(t0, bref.State(), Encode(s.body, v, 0), Reports(s.body, v, 0, SIDE_BITS), code);
    guard.Close();
    OpenPacks(s0, bref.State(), body, Reports(s.body, v, 0, SIDE_BITS), code);
  }

  lemma OpenReports(body: Schema, v: Value, pos: nat, cap: nat)
    requires Good(Open(body)) && Matches(Open(body), v)
    ensures Good(body) && Matches(body, v)
    ensures Reports(Open(body), v, pos, cap) <==> Reports(body, v, 0, SIDE_BITS)
  {
  }

  /** The side buffer holds as much of the body as it has room for. */
  lemma SideBody(s: Snap, t: Snap, e: Enc, r: bool, code: Code)
    requires s.Valid() && s.pos == 0 && Packs(s, t, e, r, code)
    ensures t.Valid() && t.Written() == Clip(e.bits, s.Cap()) && (code == Success <==> r)
  {
    hide BitsOf;
    assert s.Written() == [];
    assert [] + e.bits == e.bits;
  }

  lemma OpenPacks(s: Snap, t: Snap, body: seq<bool>, r: bool, code: Code)
    requires (code == Success <==> r) && Appends(s, t, EncOpen(body))
    ensures Packs(s, t, Enc(EncOpen(body).bits, r), r, code)
  {
    hide EncOpen, BitsOf;
  }

  method PackBoth(bref: BitRef, s: Schema, v: Value) returns (code: Code)
    requires bref.Valid() && Good(s) && Matches(s, v) && s.Both?
    modifies bref, bref.buffer
    ensures bref.Valid() && bref.buffer == old(bref.buffer) && bref.max == old(bref.max)
    ensures var s0, t0 := old(bref.State()), bref.State();
            Packs(s0, t0, Encode(s, v, s0.pos), Reports(s, v, s0.pos, s0.Cap()), code)
    decreases s, 0
  {
    hide Packs, Encode, Reports, Matches, Good;
    ghost var s0 := bref.State();
    ghost var x, y, p := s.first, s.second, s0.pos;
    IsPair(s, v);
    BothEncodes(x, y, v, p);
    BothReports(x, y, v, p, s0.Cap());
    code := PackValue(bref, s.first, v.a);
    ghost var e, t := Encode(x, v.a, p), bref.State();
    PacksCode(s0, t, e, Reports(x, v.a, p, s0.Cap()), code);
    if code != Success {
      PacksStop(s0, t, e, Encode(y, v.b, p + |e.bits|), code);
      return code;
    }
    code := PackValue(bref, s.second, v.b);
    OkAnywhere(y, v.b, p + |e.bits|, t.pos);
    PacksNext(s0, t, bref.State(), e, Encode(y, v.b, p + |e.bits|), Encode(y, v.b, t.pos),
              Reports(y, v.b, t.pos, t.Cap()), code);
  }

  lemma PacksCode(s: Snap, t: Snap, e: Enc, r: bool, code: Code)
    requires Packs(s, t, e, r, code)
    ensures (code == Success <==> r) && t.max == s.max && t.pos == Stop(s.pos + |e.bits|, s.Cap())
  {
    AppendsPos(s, t, e);
    hide Appends;
  }

  lemma IsPair(s: Schema, v: Value)
    requires s.Both? && Matches(s, v)
    ensures v.Pair?
  {
  }

  method PackListOf(bref: BitRef, s: Schema, v: Value) returns (code: Code)
    requires bref.Valid() && Good(s) && Matches(s, v) && s.ListOf?
    modifies bref, bref.buffer
    ensures bref.Valid() && bref.buffer == old(bref.buffer) && bref.max == old(bref.max)
    ensures var s0, t0 := old(bref.State()), bref.State();
            Packs(s0, t0, Encode(s, v, s0.pos), Reports(s, v, s0.pos, s0.Cap()), code)
    decreases s, 0
  {
    hide Packs, Encode, Reports, Good, Matches, EncUnaligned, EncodeList, ReportsList;
    ghost var s0, item := bref.State(), s.item;
    ListMatches(s, v);
    ListOfReports(s, v, s0.pos, s0.Cap());
    var vs, n := v.vs, |v.vs|;
    ghost var e := EncUnaligned(n, s.lo, s.hi);
    ghost var q := s0.pos + |e.bits|;
    code := PackUnaligned(bref, Uint32, n, s.lo, s.hi);
    ghost var t0 := bref.State();
    UnalignedPacks(s0, t0, e, code);
    PacksCode(s0, t0, e, e.ok, code);
    if code != Success {
      PacksStop(s0, t0, e, EncodeList(item, vs, q), code);
      return code;
    }
    ListStart(t0, item, vs);
    var i := 0;
    while i < n
      invariant i <= n && bref.Valid() && bref.buffer == old(bref.buffer) && bref.max == old(bref.max)
      invariant Packs(t0, bref.State(), EncodeList(item, vs[..i], t0.pos), true, Success)
      invariant ReportsList(item, vs[..i], t0.pos, t0.Cap())
    {
      ghost var t := bref.State();
      code := PackValue(bref, s.item, vs[i]);
      ListMore(t0, t, bref.State(), item, vs, i, code);
      if code != Success {
        ListStop(t0, bref.State(), item, vs, i + 1, code);
        ListDone(s0, t0, bref.State(), item, vs, e, false, code);
        return code;
      }
      i := i + 1;
    }
    assert vs[..n] == vs;
    ListDone(s0, t0, bref.State(), item, vs, e, true, Success);
    return Success;
  }

  lemma ListMatches(s: Schema, v: Value)
    requires s.ListOf? && Good(s) && Matches(s, v)
    ensures v.List? && |v.vs| < TWO_32 && Good(s.item) && forall i :: 0 <= i < |v.vs| ==> Matches(s.item, v.vs[i])
    ensures GoodRange(Uint32, s.lo, s.hi)
    ensures forall p: nat :: Encode(s, v, p) ==
              var e := EncUnaligned(|v.vs|, s.lo, s.hi); Then(e, EncodeList(s.item, v.vs, p + |e.bits|))
  {
    hide EncUnaligned, EncodeList;
  }

  ghost predicate AllMatch(item: Schema, vs: seq<Value>) {
    Good(item) && forall i :: 0 <= i < |vs| ==> Matches(item, vs[i])
  }

  lemma ListStart(s: Snap, item: Schema, vs: seq<Value>)
    requires s.Valid() && AllMatch(item, vs)
    ensures Packs(s, s, EncodeList(item, vs[..0], s.pos), true, Success) && ReportsList(item, vs[..0], s.pos, s.Cap())
  {
    hide Encode, Good, Matches, Reports;
    EmitsNothing(s);
    ListEncodes(item, vs[..0], s.pos);
  }

  /** One more item, packed where the items before it ended. */
  lemma ListMore(s: Snap, t: Snap, u: Snap, item: Schema, vs: seq<Value>, i: nat, code: Code)
    requires i < |vs| && AllMatch(item, vs)
    requires Packs(s, t, EncodeList(item, vs[..i], s.pos), true, Success) && ReportsList(item, vs[..i], s.pos, s.Cap())
    requires Packs(t, u, Encode(item, vs[i], t.pos), Reports(item, vs[i], t.pos, t.Cap()), code)
    ensures Packs(s, u, EncodeList(item, vs[..i + 1], s.pos), code == Success, code)
    ensures code == Success <==> ReportsList(item, vs[..i + 1], s.pos, s.Cap())
  {
    hide Encode, Good, Matches, Packs, EncodeList, Reports, ReportsList;
    var e, r := EncodeList(item, vs[..i], s.pos), Reports(item, vs[i], t.pos, t.Cap());
    ListEncodes(item, vs[..i + 1], s.pos);
    ListReports(item, vs[..i + 1], s.pos, s.Cap());
    assert vs[..i + 1][..i] == vs[..i];
    PacksCode(s, t, e, true, Success);
    PacksCode(t, u, Encode(item, vs[i], t.pos), r, code);
    OkAnywhere(item, vs[i], s.pos + |e.bits|, t.pos);
    PacksNext(s, t, u, e, Encode(item, vs[i], s.pos + |e.bits|), Encode(item, vs[i], t.pos), r, code);
  }

  lemma ListReports(item: Schema, vs: seq<Value>, pos: nat, cap: nat)
    requires vs != [] && AllMatch(item, vs)
    ensures var init := vs[..|vs| - 1];
            ReportsList(item, vs, pos, cap) <==>
              && ReportsList(item, init, pos, cap)
              && Reports(item, vs[|vs| - 1], Stop(pos + |EncodeList(item, init, pos).bits|, cap), cap)
  {
    hide Encode, EncodeList, Good, Matches, Reports;
  }

  lemma {:induction false} ListStop(s: Snap, t: Snap, item: Schema, vs: seq<Value>, i: nat, code: Code)
    requires i <= |vs| && AllMatch(item, vs)
    requires Packs(s, t, EncodeList(item, vs[..i], s.pos), false, code) && !ReportsList(item, vs[..i], s.pos, s.Cap())
    ensures Packs(s, t, EncodeList(item, vs, s.pos), false, code) && !ReportsList(item, vs, s.pos, s.Cap())
    decreases |vs| - i
  {
    hide Encode, Good, Matches, Packs, EncodeList, Reports, ReportsList;
    if i < |vs| {
      var e := EncodeList(item, vs[..i], s.pos);
      ListEncodes(item, vs[..i + 1], s.pos);
      ListReports(item, vs[..i + 1], s.pos, s.Cap());
      assert vs[..i + 1][..i] == vs[..i];
      PacksStop(s, t, e, Encode(item, vs[i], s.pos + |e.bits|), code);
      ListStop(s, t, item, vs, i + 1, code);
    } else {
      assert vs[..i] == vs;
    }
  }

  lemma ListDone(s: Snap, t: Snap, u: Snap, item: Schema, vs: seq<Value>, e: Enc, r: bool, code: Code)
    requires AllMatch(item, vs) && Packs(s, t, e, true, Success)
    requires Packs(t, u, EncodeList(item, vs, t.pos), r, code)
    ensures Packs(s, u, Then(e, EncodeList(item, vs, s.pos + |e.bits|)), r, code)
  {
    hide Good, Matches, Packs, EncodeList;
    ListOkAnywhere(item, vs, t.pos, s.pos + |e.bits|);
    PacksNext(s, t, u, e, EncodeList(item, vs, s.pos + |e.bits|), EncodeList(item, vs, t.pos), r, code);
  }

  // ----- reading -----

  /** Unpacks one message. The outcome is that of reading it, and values that are read are in their declared
      ranges; in particular, a message that decodes is returned with the cursor behind it. */
  method UnpackValue(bref: BitRef, s: Schema) returns (v: Value, code: Code)
    requires bref.Valid() && Good(s)
    modifies bref`ptr, bref`offset
    ensures bref.Valid() && old(bref.State()).pos <= bref.State().pos
    ensures Unpacks(s, bref.State().Bits(), old(bref.State()).pos, v, bref.State().pos, code)
    ensures var d := Decode(s, bref.State().Bits(), old(bref.State()).pos);
            d.Ok? ==> code == Success && d == Ok(v, bref.State().pos)
    ensures code == Success ==> InRange(s, v)
    decreases s, 1
  {
    hide Decode, InRange, Good, BitsOf, Read;
    ghost var b, p := bref.State().Bits(), bref.State().pos;
    if s.Open? {
      v, code := UnpackOpen(bref, s);
    } else if s.Both? {
      v, code := UnpackBoth(bref, s);
    } else if s.ListOf? {
      v, code := UnpackListOf(bref, s);
    } else {
      v, code := UnpackField(bref, s);
      FieldInRange(s, b, p);
      FieldIsRead(s, b, p);
    }
    if Decode(s, b, p).Ok? {
      DecodedIsRead(s, b, p);
    }
  }

  /** The outcome of unpacking a message at a position. */
  ghost predicate Unpacks(s: Schema, b: seq<bool>, pos: nat, v: Value, end: nat, code: Code)
    requires Good(s)
  {
    var d := Read(s, b, pos);
    if d.Ok? then code == Success && d == Ok(v, end) else code == DecodeFail
  }

  method UnpackField(bref: BitRef, s: Schema) returns (v: Value, code: Code)
    requires bref.Valid() && Good(s) && !s.Open? && !s.Both? && !s.ListOf?
    modifies bref`ptr, bref`offset
    ensures bref.Valid() && old(bref.State()).pos <= bref.State().pos
    ensures var d := Decode(s, bref.State().Bits(), old(bref.State()).pos);
            if d.Ok? then code == Success && d == Ok(v, bref.State().pos) else code == DecodeFail
    decreases s, 0
  {
    hide BitsOf, DecEnum, DecUnaligned, DecAligned, DecSmall, DecLength, DecOctets, DecBitstring, DecExt, GoodEnum,
      GoodRange, GoodAligned, Overlay, DecBits;
    v := Unit;
    match s {
      case Enum(n, x, h) =>
        var e: u32;
        e, code := UnpackEnum(bref, n, x, h);
        v := Num(e);
      case Unaligned(t, lb, ub) =>
        var n: int;
        n, code := UnpackUnaligned(bref, t, lb, ub);
        v := Num(n);
      case Aligned(t, lb, ub) =>
        var n: int;
        n, code := UnpackAligned(bref, t, lb, ub);
        v := Num(n);
      case Small =>
        var n: u32;
        n, code := UnpackSmall(bref);
        v := Num(n);
      case Length =>
        var n: u32;
        n, code := UnpackLength(bref);
        v := Num(n);
      case OctetString =>
        var str := new DynOctstring(0);
        code := str.Unpack(bref);
        v := Octets(str.octets[..]);
      case FixedBitstring(n) =>
        var buf := new byte[NofOctets(n)](_ => 0);
        code := UnpackBitstring(buf, bref, n);
        assert buf[..NofOctets(n)] == buf[..];
        v := Bitstring(n, buf[..]);
      case DynBitstring => v, code := UnpackDynBitstring(bref);
      case ExtHeader(size, nogroups) =>
        var h := new ExtGroupsHeader(size, nogroups);
        code := h.Unpack(bref);
        v := Flags(h.groups[..]);
      case Empty => code := Success;
    }
  }

  method UnpackDynBitstring(bref: BitRef) returns (v: Value, code: Code)
    requires bref.Valid()
    modifies bref`ptr, bref`offset
    ensures bref.Valid() && old(bref.State()).pos <= bref.State().pos
    ensures var d := DecodeField(DynBitstring, bref.State().Bits(), old(bref.State()).pos);
            if d.Ok? then code == Success && d == Ok(v, bref.State().pos) else code == DecodeFail
  {
    hide BitsOf, DecLength, DecBitstring, DecBits;
    v := Unit;
    var len: u32;
    len, code := UnpackLength(bref);
    if code == Success {
      var buf := new byte[NofOctets(len)](_ => 0);
      code := UnpackBitstring(buf, bref, len);
      assert buf[..NofOctets(len)] == buf[..];
      v := Bitstring(len, buf[..]);
    }
  }

  method UnpackOpen(bref: BitRef, s: Schema) returns (v: Value, code: Code)
    requires bref.Valid() && Good(s) && s.Open?
    modifies bref`ptr, bref`offset
    ensures bref.Valid() && old(bref.State()).pos <= bref.State().pos
    ensures Unpacks(s, bref.State().Bits(), old(bref.State()).pos, v, bref.State().pos, code)
    ensures code == Success ==> InRange(s, v)
    decreases s, 0
  {
    hide BitsOf, Read, DecLength, StoredLength, Skipped;
    ghost var b, p := bref.State().Bits(), bref.State().pos;
    OpenReads(s.body, b, p);
    var guard := new UnpackGuard(bref);
    SkipsNothing(guard.len, |b|);
    SkipsNothing(StoredLength(b, p).0, |b|);
    v, code := UnpackValue(bref, s.body);
    guard.Close();
  }

  method UnpackBoth(bref: BitRef, s: Schema) returns (v: Value, code: Code)
    requires bref.Valid() && Good(s) && s.Both?
    modifies bref`ptr, bref`offset
    ensures bref.Valid() && old(bref.State()).pos <= bref.State().pos
    ensures Unpacks(s, bref.State().Bits(), old(bref.State()).pos, v, bref.State().pos, code)
    ensures code == Success ==> InRange(s, v)
    decreases s, 0
  {
    hide BitsOf, Read;
    ghost var b, p := bref.State().Bits(), bref.State().pos;
    BothReads(s.first, s.second, b, p);
    var a, w := Unit, Unit;
    a, code := UnpackValue(bref, s.first);
    if code != Success {
      return Unit, code;
    }
    w, code := UnpackValue(bref, s.second);
    v := Pair(a, w);
  }

  method UnpackListOf(bref: BitRef, s: Schema) returns (v: Value, code: Code)
    requires bref.Valid() && Good(s) && s.ListOf?
    modifies bref`ptr, bref`offset
    ensures bref.Valid() && old(bref.State()).pos <= bref.State().pos
    ensures Unpacks(s, bref.State().Bits(), old(bref.State()).pos, v, bref.State().pos, code)
    ensures code == Success ==> InRange(s, v)
    decreases s, 0
  {
    hide BitsOf, Read, ReadList, DecUnaligned, Good, InRange;
    ghost var b, p := bref.State().Bits(), bref.State().pos;
    ListOfReads(s, b, p);
    var nofItems: int;
    nofItems, code := UnpackUnaligned(bref, Uint32, s.lo, s.hi);
    if code != Success {
      return Unit, code;
    }
    ghost var q, item := bref.State().pos, s.item;
    CountMoves(b, p, s.lo, s.hi);
    CountIsNat(s, nofItems);
    var vs: seq<Value> := [];
    ListReads(item, b, q, 0);
    var i := 0;
    while i < nofItems
      invariant i <= nofItems && bref.Valid() && bref.State().Bits() == b && q <= bref.State().pos && |vs| == i
      invariant ReadList(item, b, q, i) == Ok(vs, bref.State().pos)
      invariant forall j :: 0 <= j < i ==> InRange(item, vs[j])
    {
      var x: Value;
      ListReads(item, b, q, i);
      x, code := UnpackValue(bref, s.item);
      if code != Success {
        ReadListFails(item, b, q, i + 1, nofItems);
        return Unit, code;
      }
      vs := vs + [x];
      i := i + 1;
    }
    ListInRangeIs(s, vs);
    return List(vs), Success;
  }

  /** The bounds of a list's count are unsigned numbers. */
  lemma CountIsNat(s: Schema, n: int)
    requires s.ListOf? && Good(s) && s.lo <= n
    ensures n >= 0
  {
  }

  /** Reading a list fails for good at the first item that fails. */
  lemma {:induction false} ReadListFails(item: Schema, b: seq<bool>, pos: nat, m: nat, n: nat)
    requires Good(item) && m <= n && ReadList(item, b, pos, m).Fail?
    ensures ReadList(item, b, pos, n).Fail?
    decreases n
  {
    hide Read, Good;
    if m < n {
      ReadListFails(item, b, pos, m, n - 1);
    }
  }

  lemma ListInRangeIs(s: Schema, vs: seq<Value>)
    requires s.ListOf? && s.lo <= |vs| <= s.hi && forall i :: 0 <= i < |vs| ==> InRange(s.item, vs[i])
    ensures InRange(s, List(vs))
  {
  }

  // ----- both ways -----

  /** A message that was packed where it fits is decoded, up to where the writer stopped, exactly if its open-type
      fields fit their side buffers; and it is decoded to itself exactly if its encoding holds all of it. */
  lemma {:induction false} PackedReadsBack(sch: Schema, v: Value, s: Snap, t: Snap)
    requires Good(sch) && Matches(sch, v) && Grounded(sch, v, s.pos)
    requires Packs(s, t, Encode(sch, v, s.pos), true, Success) && Fits(s, Encode(sch, v, s.pos))
    ensures t.Valid() && ReadsBack(Decode(sch, t.Bits(), s.pos), v, t.pos, Sized(sch, v), Kept(sch, v))
  {
    hide Encode, Decode, Grounded, Sized, Kept, Good, Matches, BitsOf, Appends;
    PacksAt(s, t, Encode(sch, v, s.pos));
    RoundTrip(sch, v, s.pos, t.Bits(), s.pos);
  }

  lemma PacksAt(s: Snap, t: Snap, e: Enc)
    requires Packs(s, t, e, true, Success) && Fits(s, e)
    ensures t.Valid() && At(t.Bits(), s.pos, e.bits) && t.pos == s.pos + |e.bits| && e.ok
  {
    EmitsAt(s, t, e);
  }

  /** Any message whose open-type fields fit their side buffers, packed at any bit position with enough room, is
      unpacked by a second cursor that starts at the same place, and both cursors end at the same bit. What is unpacked
      is the message exactly if its encoding holds all of it. */
  method PackAndUnpack(bref: BitRef, s: Schema, v: Value) returns (w: Value, reader: BitRef)
    requires bref.Valid() && Good(s) && Matches(s, v)
    requires Grounded(s, v, bref.State().pos)
    requires Encode(s, v, bref.State().pos).ok && Fits(bref.State(), Encode(s, v, bref.State().pos))
    modifies bref, bref.buffer
    ensures bref.Valid() && reader.Valid() && reader.buffer == bref.buffer
    ensures Sized(s, v) ==> reader.State().pos == bref.State().pos && (w == v <==> Kept(s, v))
  {
    hide Packs, Encode, Reports, Matches, Good, Grounded, Sized, Kept, Decode, BitsOf, Fits;
    reader := new BitRef.Copy(bref);
    ghost var t := bref.State();
    var code := PackValue(bref, s, v);
    PacksFits(t, bref.State(), Encode(s, v, t.pos), Reports(s, v, t.pos, t.Cap()), code);
    PackedReadsBack(s, v, t, bref.State());
    w, code := UnpackValue(reader, s);
  }

  lemma PacksFits(s: Snap, t: Snap, e: Enc, r: bool, code: Code)
    requires Packs(s, t, e, r, code) && e.ok && Fits(s, e)
    ensures code == Success && r
  {
  }
}
