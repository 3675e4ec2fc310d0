/** The two bit arrays compared: whole rows written and read back, and the fast array as a
    refinement of the generic one. */
module BitArrays {
  import opened Numbers
  import FastBits
  import GenericBits

  method WriteGeneric(bits: nat, vs: seq<nat>) returns (raw: array<byte>)
    requires 1 <= bits <= 7 && Fit(vs, bits)
    ensures fresh(raw) && raw.Length == FastBits.Size(bits, |vs|)
    ensures LeValue(raw[..]) == GenericBits.Kept(vs, bits)
  {
    hide Pow2, Packed, GenericBits.Kept, FastBits.Size, LeValue;
    raw := new byte[FastBits.Size(bits, |vs|)](_ => 0);
    var w := new GenericBits.BitArrayWriter(bits, |vs|, raw);
    for i := 0 to |vs|
      invariant w.Valid() && w.written == vs[..i]
      invariant fresh(w)
    {
      w.Push(vs[i]);
    }
    assert vs[..|vs|] == vs;
  }

  method WriteFast(bits: nat, vs: seq<nat>) returns (raw: array<byte>)
    requires FastBits.Width(bits) && Fit(vs, bits)
    ensures fresh(raw) && raw.Length == FastBits.Size(bits, |vs|)
    ensures LeValue(raw[..]) == Packed(vs, bits)
  {
    hide Pow2, Packed, LeValue;
    raw := new byte[FastBits.Size(bits, |vs|)](_ => 0);
    var w := new FastBits.BitArrayWriter(bits, |vs|, raw, 0, raw.Length);
    for i := 0 to |vs|
      invariant w.Valid() && w.written == vs[..i]
      invariant fresh(w)
    {
      InSize(bits, i, |vs|);
      w.Push(vs[i]);
    }
    assert vs[..|vs|] == vs && raw[0..raw.Length] == raw[..];
  }

  lemma InSize(bits: nat, i: nat, count: nat)
    requires 1 <= bits && i < count
    ensures bits * i / 8 < FastBits.Size(bits, count)
  {
    MulMono(bits, i + 1, count);
    Distribute(bits, i, 1, 1);
  }

  /** The generic array returns every number written, except that a last number that straddles two
      bytes comes back modulo 2^(bits - r), where r is its number of bits in the last byte. */
  method GenericRoundTrip(bits: nat, vs: seq<nat>) returns (got: seq<nat>)
    requires 1 <= bits <= 7 && Fit(vs, bits)
    ensures |got| == |vs| && forall i :: 0 <= i < |vs| ==> got[i] == GenericBits.ReadBack(vs, bits, i)
  {
    hide Pow2, Packed, LeValue, Field, GenericBits.Kept, GenericBits.ReadBack, FastBits.Size;
    var raw := WriteGeneric(bits, vs);
    ghost var b := raw[..];
    var r := new GenericBits.BitArrayReader(bits, |vs|, raw);
    got := [];
    for i := 0 to |vs|
      invariant r.Valid() && r.i == i && fresh(r)
      invariant raw[..] == b
      invariant |got| == i && forall j :: 0 <= j < i ==> got[j] == GenericBits.ReadBack(vs, bits, j)
    {
      var v := r.Pop();
      GenericBits.KeptField(vs, bits, i);
      got := got + [v];
    }
  }

  /** The fast array returns every number written. */
  method FastRoundTrip(bits: nat, vs: seq<nat>) returns (got: seq<nat>)
    requires FastBits.Width(bits) && Fit(vs, bits)
    ensures got == vs
  {
    hide Pow2, Packed, LeValue, Field;
    var raw := WriteFast(bits, vs);
    ghost var b := raw[..];
    var r := new FastBits.BitArrayReader(bits, |vs|, raw, 0, raw.Length);
    got := [];
    for i := 0 to |vs|
      invariant r.Valid() && r.offset == i && fresh(r)
      invariant raw[..] == b
      invariant got == vs[..i]
    {
      assert raw[0..raw.Length] == raw[..];
      InSize(bits, i, |vs|);
      var v := r.Pop();
      DigitField(vs, bits, i);
      got := got + [v];
    }
    assert vs[..|vs|] == vs;
  }

  /** For the widths it supports, the fast array writes the same bytes as the generic one. */
  method SameBytes(bits: nat, vs: seq<nat>) returns (generic: seq<byte>, quick: seq<byte>)
    requires FastBits.Width(bits) && Fit(vs, bits)
    ensures generic == quick && |quick| == FastBits.Size(bits, |vs|) && LeValue(quick) == Packed(vs, bits)
  {
    hide Pow2, Packed, LeValue;
    var g := WriteGeneric(bits, vs);
    var f := WriteFast(bits, vs);
    NeverStraddles(bits, |vs|);
    BytesInjective(g[..], f[..]);
    return g[..], f[..];
  }

  lemma NeverStraddles(bits: nat, count: nat)
    requires FastBits.Width(bits)
    ensures GenericBits.Flushed(bits, count)
  {
    var k := FastBits.NoStraddle(bits, count);
    assert k == 0 || bits <= bits * k;
  }

  /** The generic array is lossless on all rows of a length exactly when the last number of such a
      row does not straddle two bytes. */
  lemma LosslessIff(bits: nat, count: nat)
    requires 1 <= bits <= 7
    ensures GenericBits.Flushed(bits, count) <==>
      forall vs: seq<nat>, i :: |vs| == count && Fit(vs, bits) && 0 <= i < count ==> GenericBits.ReadBack(vs, bits, i) == vs[i]
  {
    if !GenericBits.Flushed(bits, count) {
      var r := bits * count % 8;
      var v := Pow2(bits - r);
      Pow2Grows(bits - r, bits - 1);
      assert count > 0 by {
        assert bits * 0 == 0;
      }
      var vs := seq(count, _ => v);
      assert v < Pow2(bits) && Fit(vs, bits);
      assert GenericBits.ReadBack(vs, bits, count - 1) == v % v == 0;
    }
  }
}
