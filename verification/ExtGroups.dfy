/** The header that announces which extension groups of a message are present. */
module ExtGroups {
  import opened Bits
  import opened BitCursor
  import opened Lengths

  /** The number of groups up to and including the last one that is present. */
  function LastSet(g: seq<bool>): (n: nat)
    ensures n <= |g|
  {
    if g == [] then 0 else if g[|g| - 1] then |g| else LastSet(g[..|g| - 1])
  }

  /** Trailing absent groups are not transmitted. */
  function EncExt(g: seq<bool>, nofNogroups: u32): Enc
  {
    Then(EncSmall(U32(LastSet(g) + nofNogroups - 1)), Enc(g[..LastSet(g)], true))
  }

  /** The transmitted flags, for a header of the given size. */
  function DecExt(b: seq<bool>, pos: nat, size: nat, nofNogroups: u32): (d: Dec<seq<bool>>)
    ensures d.Ok? ==> |d.val| <= size
  {
    var (v, p) :- DecSmall(b, pos);
    var n := U32(v + 1 - nofNogroups);
    if n <= size && p + n <= |b| then Ok(b[p..p + n], p + n) else Fail
  }

  /** A header after the transmitted flags are stored: the flags beyond them keep their old values. */
  function Overlay(g: seq<bool>, flags: seq<bool>): (r: seq<bool>)
    requires |flags| <= |g|
    ensures |r| == |g|
  {
    flags + g[|flags|..]
  }

  lemma {:induction false} NoneAfterLast(g: seq<bool>)
    ensures forall i :: LastSet(g) <= i < |g| ==> !g[i]
    ensures LastSet(g) > 0 ==> g[LastSet(g) - 1]
  {
    if g != [] && !g[|g| - 1] {
      NoneAfterLast(g[..|g| - 1]);
    }
  }

  /** Reading into a fresh header restores every flag. Packing is refused exactly when the group count,
      taken as an unsigned number, is over 63: in particular when there is nothing to announce. */
  lemma {:induction false} ExtRoundTrip(b: seq<bool>, pos: nat, g: seq<bool>, nofNogroups: u32)
    requires |g| <= 20 && At(b, pos, EncExt(g, nofNogroups).bits)
    ensures EncExt(g, nofNogroups).ok <==> 1 <= LastSet(g) + nofNogroups <= 64 || LastSet(g) + nofNogroups > TWO_32
    ensures EncExt(g, nofNogroups).ok ==>
              var d := DecExt(b, pos, |g|, nofNogroups);
              && d == Ok(g[..LastSet(g)], pos + |EncExt(g, nofNogroups).bits|)
              && Overlay(seq(|g|, _ => false), d.val) == g
  {
    hide EncSmall, DecSmall, LastSet, Overlay;
    var n := U32(LastSet(g) + nofNogroups - 1);
    SmallAccepts(n);
    if EncSmall(n).ok {
      AtThen(b, pos, EncSmall(n).bits, g[..LastSet(g)]);
      SmallRoundTrip(b, pos, n);
      NoneAfterLast(g);
      OverlayIs(seq(|g|, _ => false), g, LastSet(g));
    }
  }

  lemma SmallAccepts(n: nat)
    ensures EncSmall(n).ok <==> n <= 63
  {
  }

  /** A header that is read into twice keeps flags of the first message which the second did not transmit:
      it shows the second message exactly when the first had no flag beyond the transmitted ones. */
  lemma StaleFlags(old_: seq<bool>, g: seq<bool>)
    requires |old_| == |g|
    ensures Overlay(old_, g[..LastSet(g)]) == g <==> LastSet(old_) <= LastSet(g)
  {
    hide LastSet, Overlay;
    NoneAfterLast(g);
    NoneAfterLast(old_);
    OverlayIs(old_, g, LastSet(g));
    if LastSet(old_) > LastSet(g) {
      assert old_[LastSet(old_) - 1] && !g[LastSet(old_) - 1];
    }
  }

  lemma OverlayIs(o: seq<bool>, g: seq<bool>, n: nat)
    requires |o| == |g| && n <= |g|
    ensures Overlay(o, g[..n]) == g <==> forall i :: n <= i < |g| ==> o[i] == g[i]
  {
    var r := Overlay(o, g[..n]);
    assert forall i :: 0 <= i < |g| ==> r[i] == if i < n then g[i] else o[i];
  }

  class ExtGroupsHeader {
    const groups: array<bool>
    const nofNogroups: u32
    var nofGroups: u32

    /** A fresh header, with every group absent. The library reserves room for 20 groups. */
    constructor (maxNofGroups: nat, nogroups: u32)
      requires maxNofGroups <= 20
      ensures fresh(groups) && groups[..] == seq(maxNofGroups, _ => false)
      ensures nofNogroups == nogroups && nofGroups == maxNofGroups + 1
    {
      groups := new bool[maxNofGroups](_ => false);
      nofNogroups := nogroups;
      nofGroups := maxNofGroups + 1;
    }

    method PackNofGroups(bref: BitRef) returns (code: Code)
      requires bref.Valid() && groups.Length <= 20
      modifies this, bref`ptr, bref`offset, bref.buffer
      ensures bref.Valid() && nofGroups == LastSet(groups[..])
      ensures Emits(old(bref.State()), bref.State(), EncSmall(U32(LastSet(groups[..]) + nofNogroups - 1)), code)
      ensures code != DecodeFail
    {
      hide EncSmall, Emits;
      nofGroups := 0;
      var i := 0;
      assert groups[..0] == [];
      while i < groups.Length
        invariant i <= groups.Length && nofGroups == LastSet(groups[..i])
        modifies this
      {
        if groups[i] {
          nofGroups := i + 1;
        }
        i := i + 1;
        assert groups[..i][..i - 1] == groups[..i - 1];
      }
      assert groups[..i] == groups[..];
      code := PackSmall(bref, U32(nofGroups + nofNogroups - 1));
    }

    method PackGroupFlags(bref: BitRef) returns (code: Code)
      requires bref.Valid()
      modifies bref`ptr, bref`offset, bref.buffer
      ensures bref.Valid() && code != DecodeFail
      ensures nofGroups > groups.Length ==> code == EncodeFail && bref.State() == old(bref.State())
      ensures nofGroups <= groups.Length ==>
                Emits(old(bref.State()), bref.State(), Enc(groups[..nofGroups], true), code)
    {
      hide Emits, ToBits;
      if nofGroups > groups.Length {
        return EncodeFail;
      }
      ghost var s, all := bref.State(), groups[..nofGroups];
      EmitsNothing(s);
      var i := 0;
      while i < nofGroups
        invariant bref.Valid() && i <= nofGroups && bref.buffer == old(bref.buffer)
        invariant Emits(s, bref.State(), Enc(all[..i], true), Success)
      {
        ghost var t := bref.State();
        code := bref.Pack(if groups[i] then 1 else 0, 1);
        FlagMore(s, t, bref.State(), all, i, code);
        if code != Success {
          return code;
        }
        i := i + 1;
      }
      assert all[..i] == all;
      return Success;
    }

    method Pack(bref: BitRef) returns (code: Code)
      requires bref.Valid() && groups.Length <= 20
      modifies this, bref`ptr, bref`offset, bref.buffer
      ensures bref.Valid() && code != DecodeFail
      ensures Emits(old(bref.State()), bref.State(), EncExt(groups[..], nofNogroups), code)
    {
      hide Emits, EncSmall;
      ghost var s, g := bref.State(), groups[..];
      ghost var a, c := EncSmall(U32(LastSet(g) + nofNogroups - 1)), Enc(g[..LastSet(g)], true);
      code := PackNofGroups(bref);
      if code != Success {
        EmitsRefused(s, bref.State(), a, c, code);
        return code;
      }
      ghost var t := bref.State();
      assert groups[..nofGroups] == g[..LastSet(g)];
      code := PackGroupFlags(bref);
      EmitsThen(s, t, bref.State(), a, c, code);
    }

    method UnpackNofGroups(bref: BitRef) returns (code: Code)
      requires bref.Valid()
      modifies this, bref`ptr, bref`offset
      ensures bref.Valid() && old(bref.State()).pos <= bref.State().pos
      ensures var d := DecSmall(bref.State().Bits(), old(bref.State()).pos);
              if d.Ok? && U32(d.val + 1 - nofNogroups) <= groups.Length
              then code == Success && nofGroups == U32(d.val + 1 - nofNogroups) && bref.State().pos == d.pos
              else code == DecodeFail
    {
      hide DecSmall, BitsOf;
      nofGroups, code := UnpackSmall(bref);
      if code != Success {
        return code;
      }
      nofGroups := U32(nofGroups + 1 - nofNogroups);
      if nofGroups > groups.Length {
        return DecodeFail;
      }
      return Success;
    }

    method UnpackGroupFlags(bref: BitRef) returns (code: Code)
      requires bref.Valid()
      modifies groups, bref`ptr, bref`offset
      ensures bref.Valid() && old(bref.State()).pos <= bref.State().pos
      ensures var b, p := bref.State().Bits(), old(bref.State()).pos;
              if nofGroups <= groups.Length && p + nofGroups <= |b|
              then code == Success && bref.State().pos == p + nofGroups
                   && groups[..] == Overlay(old(groups[..]), b[p..p + nofGroups])
              else code == DecodeFail
    {
      hide BitsOf, ToNat, Pow2, Overlay;
      if nofGroups > groups.Length {
        return DecodeFail;
      }
      ghost var b, p, was := bref.State().Bits(), bref.State().pos, groups[..];
      OverlayNone(was, b, p);
      var i := 0;
      while i < nofGroups
        invariant bref.Valid() && i <= nofGroups && bref.State().pos == p + i && bref.State().Bits() == b
        invariant groups[..] == Overlay(was, b[p..p + i])
      {
        var val: u32;
        ghost var g := groups[..];
        val, code := bref.Unpack(1);
        if code != Success {
          return code;
        }
        groups[i] := val != 0;
        OneFlag(b, p + i);
        assert groups[..] == g[i := b[p + i]];
        OverlayMore(was, b, p, i);
        i := i + 1;
      }
      return Success;
    }

    /** Reads a header. The flags that are not transmitted are left as they were. */
    method Unpack(bref: BitRef) returns (code: Code)
      requires bref.Valid()
      modifies this, groups, bref`ptr, bref`offset
      ensures bref.Valid() && old(bref.State()).pos <= bref.State().pos
      ensures var d := DecExt(bref.State().Bits(), old(bref.State()).pos, groups.Length, nofNogroups);
              if d.Ok?
              then code == Success && bref.State().pos == d.pos && nofGroups == |d.val|
                   && groups[..] == Overlay(old(groups[..]), d.val)
              else code == DecodeFail
    {
      hide DecSmall, BitsOf;
      code := UnpackNofGroups(bref);
      if code == Success {
        code := UnpackGroupFlags(bref);
      }
    }
  }

  lemma OverlayNone(g: seq<bool>, b: seq<bool>, p: nat)
    requires p <= |b|
    ensures Overlay(g, b[p..p]) == g
  {
  }

  lemma OverlayMore(g: seq<bool>, b: seq<bool>, p: nat, i: nat)
    requires i < |g| && p + i < |b|
    ensures Overlay(g, b[p..p + i])[i := b[p + i]] == Overlay(g, b[p..p + i + 1])
  {
  }

  lemma {:induction false} FlagMore(s: Snap, t: Snap, u: Snap, all: seq<bool>, i: nat, code: Code)
    requires i < |all| && Emits(s, t, Enc(all[..i], true), Success)
    requires Emits(t, u, Enc(ToBits(if all[i] then 1 else 0, 1), true), code)
    ensures code == Success ==> Emits(s, u, Enc(all[..i + 1], true), Success)
    ensures code == EncodeFail ==> Emits(s, u, Enc(all, true), EncodeFail)
  {
    FlagBits(all[i]);
    hide Emits, ToBits;
    EmitsThen(s, t, u, Enc(all[..i], true), Enc([all[i]], true), code);
    assert all[..i] + [all[i]] == all[..i + 1];
    if code == EncodeFail {
      SplitAt(all, i + 1);
      EmitsRefused(s, u, Enc(all[..i + 1], true), Enc(all[i + 1..], true), code);
    }
  }

  lemma SplitAt(all: seq<bool>, i: nat)
    requires i <= |all|
    ensures all[..i] + all[i..] == all
  {
  }

  lemma {:induction false} FlagBits(f: bool)
    ensures ToBits(if f then 1 else 0, 1) == [f]
  {
    assert ToBits(if f then 1 else 0, 0) == [];
  }

  lemma {:induction false} OneFlag(b: seq<bool>, p: nat)
    requires p < |b|
    ensures DecBits(b, p, 1) == Ok(if b[p] then 1 else 0, p + 1)
  {
    var x := b[p..p + 1];
    assert x[..0] == [];
    assert ToNat(x) == 2 * ToNat(x[..0]) + (if x[0] then 1 else 0);
  }
}
