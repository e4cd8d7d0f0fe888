/** Open-type fields: a nested encoding, padded to whole octets behind a length determinant. */
module OpenField {
  import opened Bits
  import opened BitCursor
  import opened Lengths

  /** The size in octets of the side buffer that holds the body while it is being written. */
  const SIDE_BUFFER: nat := 1024

  function EncOpen(body: seq<bool>): Enc
  {
    Then(EncLength((|body| + 7) / 8), Enc(body + Zeros(Pad(|body|)), true))
  }

  /** An empty body is sent as the length 0, and not as one zero octet. */
  lemma {:induction false} EmptyBody()
    ensures EncOpen([]) == Enc(Zeros(8), true)
  {
    ToBitsZero(1);
    ToBitsZero(7);
    hide ToBits;
    assert EncLength(0).bits == Zeros(1) + Zeros(7);
  }

  /** The number of spare bits, computed on unsigned 32-bit values: an empty body needs none. */
  lemma Leftover(d: nat)
    requires d < TWO_32
    ensures 7 - U32(d - 1) % 8 == Pad(d)
  {
    if d == 0 {
      assert U32(-1) == TWO_32 - 1;
    } else {
      assert U32(d - 1) == d - 1;
    }
  }

  lemma {:induction false} WholeBytes(buf: seq<byte>, n: nat)
    requires n <= |buf|
    ensures BitsOf(buf)[..8 * n] == BitsOf(buf[..n])
  {
    hide ToBits;
    BitsOfConcat(buf[..n], buf[n..]);
    assert buf[..n] + buf[n..] == buf;
  }

  /** Redirects a cursor to a side buffer for as long as the guard is open. */
  class PackGuard {
    const brefstart: BitRef
    const tracker: BitRef
    const buffer: array<byte>

    ghost predicate Open()
      reads this, tracker, brefstart
    {
      && tracker != brefstart
      && brefstart.Valid() && brefstart.buffer != buffer
      && tracker.Valid() && tracker.buffer == buffer && tracker.max == buffer.Length == SIDE_BUFFER
    }

    constructor (bref: BitRef)
      requires bref.Valid()
      modifies bref
      ensures fresh(buffer) && fresh(brefstart) && tracker == bref && Open()
      ensures brefstart.buffer == old(bref.buffer) && brefstart.State() == old(bref.State())
      ensures bref.State().pos == 0
    {
      brefstart := new BitRef.Copy(bref);
      buffer := new byte[SIDE_BUFFER](_ => 0);
      tracker := bref;
      new;
      bref.buffer, bref.ptr, bref.offset, bref.max := buffer, 0, 0, buffer.Length;
    }

    /** Closes the guard: pads the body, goes back to where the field starts, and copies the body
        there behind its length. The outcomes of the packing calls are dropped. */
    method Close()
      requires Open()
      modifies tracker, buffer, brefstart, brefstart.buffer
      ensures tracker.Valid() && tracker.buffer == old(brefstart.buffer) && tracker.max == old(brefstart.max)
      ensures Appends(old(brefstart.State()), tracker.State(), EncOpen(old(tracker.State()).Written()))
    {
      hide Emits, Appends, EncLength, ToBits, BitsOf, Pad;
      ghost var s, body := brefstart.State(), tracker.State().Written();
      ghost var t0 := tracker.State();
      // fill the spare bits
      Leftover(tracker.Distance());
      PadBound(tracker.Distance());
      var leftover := 7 - U32(tracker.Distance() - 1) % 8;
      ToBitsZero(leftover);
      var ignored := tracker.Pack(0, leftover);
      PaddedBody(t0, tracker.State(), leftover, ignored);
      var nofBytes := tracker.Distance() / 8;
      // go back and pack the length
      ghost var length, o := EncLength(nofBytes), buffer[..nofBytes];
      ShortLength(nofBytes);
      ignored := PackLength(brefstart, nofBytes);
      StartBytes(s, brefstart.State(), length, o, ignored);
      // pack the encoded bytes
      var i := 0;
      while i < nofBytes
        invariant i <= nofBytes <= buffer.Length && buffer[..nofBytes] == o
        invariant brefstart.Valid() && brefstart.buffer == old(brefstart.buffer) && brefstart.max == old(brefstart.max)
        invariant Appends(s, brefstart.State(), Then(length, Enc(BitsOf(o[..i]), true)))
        modifies brefstart, brefstart.buffer
      {
        ghost var t := brefstart.State();
        ignored := brefstart.Pack(buffer[i], 8);
        MoreBytes(s, t, brefstart.State(), length, o, i, ignored);
        i := i + 1;
      }
      assert o[..i] == o;
      ghost var e := brefstart.State();
      assert Appends(s, e, EncOpen(body));
      tracker.buffer, tracker.ptr, tracker.offset, tracker.max :=
        brefstart.buffer, brefstart.ptr, brefstart.offset, brefstart.max;
      assert tracker.State() == e;
    }
  }

  lemma PadBound(pos: nat)
    ensures Pad(pos) <= 7 && (pos + Pad(pos)) % 8 == 0
  {
  }

  /** After padding, the side buffer holds the body in whole octets. */
  lemma {:induction false} PaddedBody(s: Snap, t: Snap, k: nat, code: Code)
    requires s.Valid() && k == Pad(s.pos) && Emits(s, t, Enc(Zeros(k), true), code)
    ensures t.pos / 8 <= t.max && BitsOf(t.buf[..t.pos / 8]) == s.Written() + Zeros(k)
    ensures t.pos / 8 == (s.pos + 7) / 8 == (|s.Written()| + 7) / 8
    ensures |s.Written()| == s.pos
  {
    hide BitsOf, Pad, Clip;
    var n := (s.pos + 7) / 8;
    PadsUp(s.pos);
    assert |s.Written()| == s.pos;
    AppendsPos(s, t, Enc(Zeros(k), true));
    assert t.pos == 8 * n && t.Written() == s.Written() + Zeros(k);
    WholeBytes(t.buf[..t.max], n);
    assert t.buf[..t.max][..n] == t.buf[..n];
  }

  lemma PadsUp(pos: nat)
    ensures pos + Pad(pos) == (pos + 7) / 8 * 8
  {
  }

  lemma ShortLength(n: nat)
    requires n <= SIDE_BUFFER
    ensures EncLength(n).ok
  {
  }

  lemma StartBytes(s: Snap, t: Snap, length: Enc, o: seq<byte>, code: Code)
    requires length.ok && Emits(s, t, length, code)
    ensures Appends(s, t, Then(length, Enc(BitsOf(o[..0]), true)))
  {
    assert length.bits + [] == length.bits;
  }

  lemma {:induction false} MoreBytes(s: Snap, t: Snap, u: Snap, length: Enc, o: seq<byte>, i: nat, code: Code)
    requires i < |o| && length.ok && Appends(s, t, Then(length, Enc(BitsOf(o[..i]), true)))
    requires Emits(t, u, Enc(ToBits(o[i], 8), true), code)
    ensures Appends(s, u, Then(length, Enc(BitsOf(o[..i + 1]), true)))
  {
    hide Appends, ToBits;
    assert o[..i + 1][..i] == o[..i];
    SeqAssoc(length.bits, BitsOf(o[..i]), ToBits(o[i], 8));
    AppendsThen(s, t, u, Then(length, Enc(BitsOf(o[..i]), true)), Enc(ToBits(o[i], 8), true));
  }

  /** Where a cursor stops that tries to move to a position. */
  function Stop(pos: nat, cap: nat): nat
  {
    if pos <= cap then pos else cap
  }

  /** Where a reader ends that skips the rest of a field of len octets. Behind the field, the rest wraps around. */
  function Skipped(start: nat, len: nat, pos: nat, cap: nat): nat
  {
    Stop(pos + U32(len * 8 - (pos - start)), cap)
  }

  /** Remembers where the body of an open-type field starts and how long it is. */
  class UnpackGuard {
    const tracker: BitRef
    const bref0: nat
    const len: u32

    /** Reads the length; the outcome of that is dropped. */
    constructor (bref: BitRef)
      requires bref.Valid()
      modifies bref`ptr, bref`offset
      ensures tracker == bref && bref.Valid() && old(bref.State()).pos <= bref.State().pos == bref0
      ensures var stored := StoredLength(bref.State().Bits(), old(bref.State()).pos);
              bref0 == stored.1 && (len == stored.0 || bref0 == |bref.State().Bits()|)
      ensures var d := DecLength(bref.State().Bits(), old(bref.State()).pos);
              d.Ok? ==> d == Ok(len as nat, bref0)
    {
      hide BitsOf, DecLength, StoredLength;
      var n, ignored := UnpackLength(bref);
      tracker := bref;
      len := n;
      bref0 := bref.Distance();
    }

    /** Skips what the reader of the body left unread. A reader that stopped within the field ends
        exactly behind it; one that ran past its end is sent to the end of the buffer. */
    method Close()
      requires tracker.Valid() && bref0 <= tracker.State().pos
      modifies tracker`ptr, tracker`offset
      ensures tracker.Valid() && old(tracker.State()).pos <= tracker.State().pos
      ensures tracker.State().pos == Skipped(bref0, len, old(tracker.State()).pos, 8 * tracker.max)
      ensures var end := bref0 + 8 * len;
              8 * len < TWO_32 && 8 * tracker.max < TWO_32 ==>
                tracker.State().pos ==
                  if old(tracker.State()).pos <= end <= 8 * tracker.max then end else 8 * tracker.max
      ensures 8 * len < TWO_32 && old(tracker.State()).pos <= bref0 + 8 * len <= 8 * tracker.max ==>
                tracker.State().pos == bref0 + 8 * len
    {
      var unread := U32(len * 8 - (tracker.Distance() - bref0));
      if 8 * len < TWO_32 {
        UnreadBits(bref0, len, tracker.Distance(), unread);
      }
      var pad, ignored := tracker.Unpack(unread);
    }
  }

  lemma UnreadBits(start: nat, len: u32, pos: nat, unread: nat)
    requires 8 * len < TWO_32 && start <= pos && unread == U32(len * 8 - (pos - start))
    ensures pos <= start + 8 * len ==> unread == start + 8 * len - pos
    ensures start + 8 * len < pos < TWO_32 ==> pos + unread >= TWO_32
  {
  }
}
