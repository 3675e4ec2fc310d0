/** Model of `utils/fast/bits.go`: fixed-width numbers, of 1, 2 or 4 bits, packed into bytes so
    that no number straddles two bytes. */
module FastBits {
  import opened Numbers

  /** `calcSize`: the least number of bytes that holds `count` numbers. */
  function Size(bits: nat, count: nat): (s: nat)
    ensures bits * count <= 8 * s < bits * count + 8
  {
    bits * count / 8 + (if bits * count % 8 > 0 then 1 else 0)
  }

  predicate Width(bits: nat) {
    bits == 1 || bits == 2 || bits == 4
  }

  /** A number starts at a multiple of its width within a byte, and so ends in the same byte. */
  lemma NoStraddle(bits: nat, offset: nat) returns (k: nat)
    requires Width(bits)
    ensures bits * offset % 8 == bits * k && bits * k + bits <= 8
  {
    var n := if bits == 4 then 2 else if bits == 2 then 4 else 8;
    k := offset % n;
    DivUnique(bits * offset, 8, offset / n, bits * k);
  }

  /** Or-ing the number, shifted by s, into byte k appends it to the packed row. */
  lemma PushPacks(b: seq<byte>, bits: nat, written: seq<nat>, v: nat, k: nat, s: nat)
    requires Fit(written, bits) && v < Pow2(bits) && LeValue(b) == Packed(written, bits)
    requires bits * |written| == 8 * k + s && s + bits <= 8 && k < |b|
    ensures BitOr(b[k], Shl(v, s)) < 256
    ensures LeValue(b[k := BitOr(b[k], Shl(v, s))]) == Packed(written + [v], bits)
  {
    hide Pow2, BitOr, Packed, Field, Shl, LeValue;
    PackedBound(written, bits);
    ByteField(b, k);
    FieldBelow(LeValue(b), 8 * k, s, 8);
    OrAbove(b[k], v, s);
    Fits(b[k], v, s, bits);
    ByteUpdate(b, k, b[k] + Shl(v, s));
    PackedSnoc(written, bits, v);
    ShlShl(v, s, 8 * k);
  }

  lemma Fits(a: nat, v: nat, s: nat, bits: nat)
    requires a < Pow2(s) && v < Pow2(bits) && s + bits <= 8
    ensures a + Shl(v, s) < 256
  {
    Pow2Of8();
    Pow2Grows(s + bits, 8);
    Pow2Add(s, bits);
    MulMono(Pow2(s), v + 1, Pow2(bits));
    Distribute(Pow2(s), v, 1, 1);
  }

  /** The number read back from its byte is its field of the packed row. */
  lemma FieldInByte(b: seq<byte>, bits: nat, k: nat, s: nat)
    requires k < |b| && s + bits <= 8
    ensures Field(LeValue(b), 8 * k + s, bits) == Shr(b[k], s) % Pow2(bits)
  {
    hide Pow2, Packed, Field;
    var n := LeValue(b);
    ByteField(b, k);
    FieldParts(n, 8 * k, s, 8 - s);
    FieldParts(n, 8 * k + s, bits, 8 - s - bits);
  }

  class BitArrayWriter {
    const bits: nat
    const raw: array<byte>
    const lo: nat
    const size: nat
    var offset: nat
    /** The numbers pushed so far. */
    ghost var written: seq<nat>

    /** The part of `raw` this writer was given. */
    ghost function Bytes(): seq<byte>
      requires lo + size <= raw.Length
      reads raw
    {
      raw[lo..lo + size]
    }

    ghost predicate Valid()
      reads this, raw
    {
      && Width(bits)
      && lo + size <= raw.Length
      && offset == |written|
      && Fit(written, bits)
      && LeValue(Bytes()) == Packed(written, bits)
    }

    /** `NewBitArray(bits, count).Writer(raw[lo:lo+size])` on a zeroed slice. */
    constructor (bits: nat, count: nat, raw: array<byte>, lo: nat, size: nat)
      requires Width(bits) && size == Size(bits, count) && lo + size <= raw.Length
      requires forall i :: lo <= i < lo + size ==> raw[i] == 0
      ensures Valid() && written == []
      ensures this.bits == bits && this.raw == raw && this.lo == lo && this.size == size
    {
      this.bits, this.raw, this.lo, this.size := bits, raw, lo, size;
      this.offset, this.written := 0, [];
      new;
      PackedZeros(size, 8);
      assert raw[lo..lo + size] == seq(size, _ => 0);
    }

    method NextPart() returns (byteOffset: nat, bytePartOffset: nat)
      modifies this`offset
      ensures byteOffset == bits * old(offset) / 8 && bytePartOffset == bits * old(offset) % 8
      ensures offset == old(offset) + 1
    {
      var bitsOffset := offset * bits;
      byteOffset := bitsOffset / 8;
      bytePartOffset := bitsOffset % 8;
      offset := offset + 1;
    }

    /** `Push`: appends the number to the packed row and touches no other byte of `raw`. */
    method Push(v: nat)
      requires Valid() && v < Pow2(bits) && bits * offset / 8 < size
      modifies this, raw
      ensures Valid() && written == old(written) + [v]
      ensures forall i :: 0 <= i < raw.Length && !(lo <= i < lo + size) ==> raw[i] == old(raw[i])
    {
      hide Pow2, BitOr, Packed;
      ghost var _ := NoStraddle(bits, offset);
      PushPacks(Bytes(), bits, written, v, bits * offset / 8, bits * offset % 8);
      var byteOffset, bytePartOffset := NextPart();
      ghost var b := Bytes();
      raw[lo + byteOffset] := BitOr(raw[lo + byteOffset], Shl(v, bytePartOffset));
      written := written + [v];
      assert Bytes() == b[byteOffset := raw[lo + byteOffset]];
    }
  }

  class BitArrayReader {
    const bits: nat
    const raw: array<byte>
    const lo: nat
    const size: nat
    var offset: nat

    ghost predicate Valid()
      reads this
    {
      Width(bits) && lo + size <= raw.Length
    }

    constructor (bits: nat, count: nat, raw: array<byte>, lo: nat, size: nat)
      requires Width(bits) && size == Size(bits, count) && lo + size <= raw.Length
      ensures Valid() && offset == 0
      ensures this.bits == bits && this.raw == raw && this.lo == lo && this.size == size
    {
      this.bits, this.raw, this.lo, this.size, this.offset := bits, raw, lo, size, 0;
    }

    /** `Pop`: the next number of the packed row. */
    method Pop() returns (v: nat)
      requires Valid() && bits * offset / 8 < size
      modifies this
      ensures Valid() && offset == old(offset) + 1
      ensures v == Field(LeValue(raw[lo..lo + size]), bits * old(offset), bits)
    {
      hide Pow2, BitAnd, Packed, Field;
      ghost var _ := NoStraddle(bits, offset);
      FieldInByte(raw[lo..lo + size], bits, bits * offset / 8, bits * offset % 8);
      var bitsOffset := offset * bits;
      var byteOffset, bytePartOffset := bitsOffset / 8, bitsOffset % 8;
      offset := offset + 1;
      var mask := Pow2(bits) - 1;
      AndMask(Shr(raw[lo + byteOffset], bytePartOffset), bits);
      v := BitAnd(Shr(raw[lo + byteOffset], bytePartOffset), mask);
    }
  }
}
