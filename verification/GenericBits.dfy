/** Model of `utils/bits.go`: fixed-width numbers of up to 7 bits packed densely into bytes, with
    a 16-bit accumulator for numbers that straddle two bytes. */
module GenericBits {
  import opened Numbers
  import FastBits

  /** Where number i of a row begins. */
  function Position(bits: nat, i: nat): nat {
    bits * i
  }

  /** What fits into the 16-bit accumulator. */
  function Low16(n: nat): nat {
    n % 65536
  }

  /** The last number written ends in a byte that was stored after it was added. */
  predicate Flushed(bits: nat, count: nat) {
    bits * count % 8 == 0 || bits <= bits * count % 8
  }

  /** The number the bytes hold after writing vs: the bits of a straddling last number that belong
      to the next byte stay in the accumulator. */
  function Kept(vs: seq<nat>, bits: nat): nat {
    if Flushed(bits, |vs|) then Packed(vs, bits)
    else Packed(vs, bits) % Pow2(bits * |vs| - bits * |vs| % 8)
  }

  /** What reading back number i of vs gives. */
  function ReadBack(vs: seq<nat>, bits: nat, i: nat): nat
    requires i < |vs|
  {
    if Flushed(bits, |vs|) || i < |vs| - 1 then vs[i]
    else vs[i] % Pow2(bits - bits * |vs| % 8)
  }

  /** Reading is exact, except that a straddling last number loses its high bits. */
  lemma KeptField(vs: seq<nat>, bits: nat, i: nat)
    requires Fit(vs, bits) && i < |vs|
    ensures Field(Kept(vs, bits), bits * i, bits) == ReadBack(vs, bits, i)
  {
    hide Pow2, Packed, Field;
    var n, t, r := Packed(vs, bits), bits * |vs|, bits * |vs| % 8;
    DigitField(vs, bits, i);
    if !Flushed(bits, |vs|) {
      if i < |vs| - 1 {
        assert bits * i + bits <= t - r by {
          MulMono(bits, i + 2, |vs|);
          Distribute(bits, i, 2, 1);
        }
        FieldOfMod(n, t - r, bits * i, bits);
      } else {
        Row(bits, |vs|);
        LastField(n, t - r, bits * i, bits - r, r);
        FieldParts(n, bits * i, bits - r, r);
      }
    }
  }

  /** Of a field that reaches r bits beyond the cut m, only the low part is left. */
  lemma LastField(n: nat, m: nat, p: nat, a: nat, r: nat)
    requires p + a == m
    ensures Field(n % Pow2(m), p, a + r) == Field(n, p, a)
  {
    assert Pow2(0) == 1;
    hide Pow2, Field;
    FieldSplit(n % Pow2(m), p, a, r);
    FieldOfMod(n, m, p, a);
    FieldBelow(n % Pow2(m), m, 0, r);
    var high := Field(n % Pow2(m), m, r);
    assert high == 0 && Pow2(a) * 0 == 0;
  }

  /** Storing the low byte of the accumulator: the bytes then hold the numbers so far, and the
      new one, up to the end of byte o. */
  lemma StoreByte(b: seq<byte>, low: nat, buf: nat, o: nat, n: nat, v: nat)
    requires o < |b| && n < 8 && low < Pow2(8 * o) && buf < 256
    requires LeValue(b) == low || LeValue(b) == low + Shl(buf, 8 * o)
    ensures var acc, next := buf + Shl(v, n), low + Shl(buf, 8 * o) + Shl(v, 8 * o + n);
      && LeValue(b[o := acc % 256]) == next % Pow2(8 * o + 8)
      && Shr(next, 8 * o) == acc
  {
    hide Pow2, Packed, LeValue, Field;
    Pow2Add(8 * o, n);
    Pow2Add(8 * o, 8);
    Pow2Of8();
    ByteField(b, o);
    FieldOf(LeValue(b), 8 * o);
    ByteUpdate(b, o, (buf + Shl(v, n)) % 256);
    TopByte(Pow2(8 * o), low, buf, LeValue(b));
    StoreNumber(Pow2(8 * o), Pow2(n), low, buf, LeValue(b), b[o], v);
  }

  lemma FieldOf(n: nat, p: nat)
    ensures Field(n, p, 8) == Quotient(n, Pow2(p)) % 256
  {
    Pow2Of8();
  }

  lemma StoreNumber(p: nat, q: nat, low: nat, buf: nat, l: nat, x: nat, v: nat)
    requires 0 < p && low < p && l == low + p * x
    ensures var acc, next := buf + v * q, low + buf * p + v * (p * q);
      l + (acc % 256 - x) * p == next % (p * 256) && next / p == acc
  {
    AddAbove(p, q, low, buf, v);
    StoredLow(p, low, l, x, (buf + v * q) % 256);
  }

  lemma StoredLow(p: nat, low: nat, l: nat, x: nat, y: nat)
    requires l == low + p * x
    ensures l + (y - x) * p == low + p * y
  {
  }

  lemma AddAbove(p: nat, q: nat, low: nat, buf: nat, v: nat)
    requires 0 < p && low < p
    ensures var acc, next := buf + v * q, low + buf * p + v * (p * q);
      next / p == acc && next % (p * 256) == low + p * (acc % 256)
  {
    var acc, next := buf + v * q, low + buf * p + v * (p * q);
    Regroup(p, low, buf, v, q);
    DivUnique(next, p, acc, low);
    DivMul(next, p, 256);
  }

  lemma TopByte(p: nat, low: nat, buf: nat, l: nat)
    requires low < p && buf < 256 && (l == low || l == low + buf * p)
    ensures l == low + p * (Quotient(l, p) % 256)
  {
    DivUnique(l, p, if l == low then 0 else buf, low);
  }

  lemma Regroup(p: nat, low: nat, buf: nat, v: nat, q: nat)
    ensures low + buf * p + v * (p * q) == (buf + v * q) * p + low
  {
    Distribute(p, buf, v, q);
  }

  lemma KeptCases(vs: seq<nat>, bits: nat, o: nat, n: nat)
    requires bits * |vs| == 8 * o + n && n < 8
    ensures Kept(vs, bits) == if n == 0 || bits <= n then Packed(vs, bits) else Packed(vs, bits) % Pow2(8 * o)
  {
    hide Pow2, Packed;
    assert (8 * o + n) % 8 == n;
  }

  /** After the next number the bytes up to byte o are those of `Kept`. */
  lemma PushKeeps(vs: seq<nat>, bits: nat, v: nat, o: nat, n: nat)
    requires 1 <= bits <= 7 && Fit(vs, bits) && v < Pow2(bits)
    requires bits * |vs| == 8 * o + n && n < 8
    ensures var total := Packed(vs + [v], bits);
      && total == Packed(vs, bits) + Shl(v, 8 * o + n)
      && total < Pow2(8 * o + n + bits)
      && Kept(vs + [v], bits) == total % Pow2(8 * o + 8)
  {
    hide Pow2, Packed, Shl, Kept;
    var ws := vs + [v];
    PackedSnoc(vs, bits, v);
    assert Fit(ws, bits);
    PackedBound(ws, bits);
    Row(bits, |ws|);
    if n + bits < 8 {
      KeptCases(ws, bits, o, n + bits);
    } else {
      KeptCases(ws, bits, o + 1, n + bits - 8);
    }
    if n + bits <= 8 {
      Pow2Grows(8 * o + n + bits, 8 * o + 8);
      SmallMod(Packed(ws, bits), Pow2(8 * o + 8));
    }
  }

  /** The accumulator never needs more than its 16 bits. */
  lemma AccumulatorFits(buf: nat, v: nat, n: nat, bits: nat)
    requires buf < Pow2(n) && v < Pow2(bits) && n <= 7 && bits <= 8
    ensures Low16(buf + Low16(Shl(v, n))) == Low16(buf + Shl(v, n)) == buf + Shl(v, n)
  {
    hide Pow2, Shl, Low16;
    Pow2Of8();
    Pow2Grows(bits, 8);
    Pow2Grows(n, 8);
    TwoBytes(buf, v, n);
    Small16(Shl(v, n));
    Small16(buf + Shl(v, n));
  }

  lemma Small16(n: nat)
    requires n < 65536
    ensures Low16(n) == n
  {
  }

  lemma TwoBytes(low: nat, high: nat, n: nat)
    requires low < Pow2(n) <= 256 && high < 256
    ensures low + Shl(high, n) < 65536
  {
    hide Pow2;
    MulMono(Pow2(n), high + 1, 256);
    Distribute(Pow2(n), high, 1, 1);
  }

  lemma InRange(bits: nat, i: nat, count: nat, o: nat, n: nat)
    requires i < count && 1 <= bits && Position(bits, i) == 8 * o + n
    ensures o < FastBits.Size(bits, count)
    ensures Position(bits, i + 1) == 8 * o + n + bits
  {
    MulMono(bits, i + 1, count);
    Distribute(bits, i, 1, 1);
  }

  /** What is left in the accumulator after each byte is shifted out. */
  lemma ShiftOut(total: nat, o: nat, n: nat)
    requires total < Pow2(8 * o + n)
    ensures Shr(total, 8 * o) < Pow2(n)
    ensures Shr(total, 8 * o) / 256 == Shr(total, 8 * o + 8)
    ensures n >= 8 ==> Shr(total, 8 * o + 8) < Pow2(n - 8)
  {
    hide Pow2;
    Pow2Of8();
    Pow2Add(8 * o, n);
    Pow2Add(8 * o, 8);
    DivBelow(total, Pow2(8 * o), Pow2(n));
    DivMul(total, Pow2(8 * o), 256);
    if n >= 8 {
      Pow2Add(8 * o + 8, n - 8);
      DivBelow(total, Pow2(8 * o + 8), Pow2(n - 8));
    }
  }

  lemma Split(total: nat, o: nat, n: nat)
    requires total < Pow2(8 * o + n) && n < 8
    ensures total == total % Pow2(8 * o) + Shl(Shr(total, 8 * o), 8 * o) && Shr(total, 8 * o) < 256
  {
    hide Pow2;
    Pow2Add(8 * o, n);
    DivBelow(total, Pow2(8 * o), Pow2(n));
    Pow2Grows(n, 8);
    Pow2Of8();
  }

  /** One `Push` in numbers: what is stored, and what the accumulator holds before it is shifted. */
  lemma PushStep(b: seq<byte>, vs: seq<nat>, bits: nat, v: nat, o: nat, n: nat)
    requires 1 <= bits <= 7 && Fit(vs, bits) && v < Pow2(bits) && Position(bits, |vs|) == 8 * o + n && n < 8
    requires o < |b| && LeValue(b) == Kept(vs, bits)
    ensures var total := Packed(vs + [v], bits);
      var acc := Shr(Packed(vs, bits), 8 * o) + Shl(v, n);
      && acc == Shr(total, 8 * o) < Pow2(n + bits)
      && LeValue(b[o := acc % 256]) == Kept(vs + [v], bits)
      && acc / 256 == Shr(total, 8 * o + 8)
      && (n + bits >= 8 ==> acc / 256 < Pow2(n + bits - 8))
  {
    hide Pow2, Packed, LeValue, Kept, Shl, Shr;
    PackedBound(vs, bits);
    KeptCases(vs, bits, o, n);
    PushKeeps(vs, bits, v, o, n);
    Split(Packed(vs, bits), o, n);
    StoreByte(b, Packed(vs, bits) % Pow2(8 * o), Shr(Packed(vs, bits), 8 * o), o, n, v);
    ShiftOut(Packed(vs + [v], bits), o, n + bits);
  }

  class BitArrayWriter {
    const bits: nat
    const count: nat
    const raw: array<byte>
    var offset: nat
    var i: nat
    var buf: nat
    var n: nat
    /** The numbers pushed so far. */
    ghost var written: seq<nat>

    ghost predicate Valid()
      reads this, raw
    {
      && 1 <= bits <= 7
      && raw.Length == FastBits.Size(bits, count)
      && i == |written| <= count
      && Fit(written, bits)
      && n < 8 && Position(bits, i) == 8 * offset + n
      && buf == Shr(Packed(written, bits), 8 * offset) < Pow2(n)
      && LeValue(raw[..]) == Kept(written, bits)
    }

    /** `NewBitArray(bits, count).Writer(raw)` on a zeroed slice. */
    constructor (bits: nat, count: nat, raw: array<byte>)
      requires 1 <= bits <= 7 && raw.Length == FastBits.Size(bits, count)
      requires forall j :: 0 <= j < raw.Length ==> raw[j] == 0
      ensures Valid() && written == []
      ensures this.bits == bits && this.count == count && this.raw == raw
    {
      this.bits, this.count, this.raw := bits, count, raw;
      this.offset, this.i, this.buf, this.n, this.written := 0, 0, 0, 0, [];
      new;
      PackedZeros(raw.Length, 8);
      assert raw[..] == seq(raw.Length, _ => 0);
      assert bits * 0 == 0;
    }

    /** `Push`: appends a number; it stays inside `raw` and inside the accumulator. */
    method Push(v: nat)
      requires Valid() && v < Pow2(bits) && i < count
      modifies this, raw
      ensures Valid() && written == old(written) + [v]
    {
      hide Pow2, Packed, Kept, LeValue, Shl, Shr, FastBits.Size, Position, Low16;
      ghost var b := raw[..];
      InRange(bits, i, count, offset, n);
      PushStep(b, written, bits, v, offset, n);
      AccumulatorFits(buf, v, n, bits);
      buf := Low16(buf + Shl(v, n));
      n := n + bits;
      raw[offset] := buf % 256;
      assert raw[..] == b[offset := raw[offset]];
      written := written + [v];
      i := i + 1;
      Drain(Packed(written, bits));
    }

    /** The loop of `Push`: full bytes leave the accumulator. */
    method Drain(ghost total: nat)
      requires n < 16 && buf == Shr(total, 8 * offset) < Pow2(n)
      requires buf / 256 == Shr(total, 8 * offset + 8) && (n >= 8 ==> buf / 256 < Pow2(n - 8))
      modifies this`offset, this`buf, this`n
      ensures n < 8 && 8 * offset + n == old(8 * offset + n) && buf == Shr(total, 8 * offset) < Pow2(n)
    {
      hide Pow2, Shr;
      ghost var o, m := offset, n;
      while n >= 8
        invariant offset == o || (offset == o + 1 && m >= 8)
        invariant n == m - 8 * (offset - o)
        invariant buf == Shr(total, 8 * offset) < Pow2(n)
      {
        offset := offset + 1;
        buf := buf / 256;
        n := n - 8;
      }
    }
  }

  class BitArrayReader {
    const bits: nat
    const count: nat
    const raw: array<byte>
    const mask: nat
    var offset: nat
    var i: nat
    var buf: nat
    var n: nat

    /** The accumulator holds the n bits between the next number and the next byte. */
    ghost predicate Valid()
      reads this, raw
    {
      && 1 <= bits <= 7 && mask == Pow2(bits) - 1
      && raw.Length == FastBits.Size(bits, count)
      && i <= count && n < 8 && Position(bits, i) + n == 8 * offset
      && buf == Field(LeValue(raw[..]), Position(bits, i), n)
    }

    constructor (bits: nat, count: nat, raw: array<byte>)
      requires 1 <= bits <= 7 && raw.Length == FastBits.Size(bits, count)
      ensures Valid() && i == 0
      ensures this.bits == bits && this.count == count && this.raw == raw
    {
      this.bits, this.count, this.raw, this.mask := bits, count, raw, Pow2(bits) - 1;
      this.offset, this.i, this.buf, this.n := 0, 0, 0, 0;
      new;
      assert bits * 0 == 0;
    }

    /** `Pop`: the next field of the number the bytes hold. */
    method Pop() returns (v: nat)
      requires Valid() && i < count
      modifies this
      ensures Valid() && i == old(i) + 1
      ensures v == Field(LeValue(raw[..]), Position(bits, old(i)), bits)
    {
      hide Pow2, LeValue, Field, Shl, Shr, BitAnd, FastBits.Size, Position, Low16;
      ghost var l, p := LeValue(raw[..]), Position(bits, i);
      NextInRange(bits, i, count, offset, n);
      if n < bits {
        var x := raw[offset];
        LoadByte(raw[..], p, n, offset);
        offset := offset + 1;
        buf := Low16(buf + Low16(Shl(x, n)));
        n := n + 8;
      }
      TakeField(l, p, bits, n);
      v := BitAnd(buf, mask);
      i := i + 1;
      buf := Shr(buf, bits);
      n := n - bits;
    }
  }

  /** Masking takes the low number off the accumulator and shifting leaves the rest. */
  lemma TakeField(l: nat, p: nat, bits: nat, n: nat)
    requires bits <= n
    ensures BitAnd(Field(l, p, n), Pow2(bits) - 1) == Field(l, p, bits)
    ensures Shr(Field(l, p, n), bits) == Field(l, p + bits, n - bits)
  {
    hide Pow2, BitAnd, Field;
    FieldParts(l, p, bits, n - bits);
    AndMask(Field(l, p, n), bits);
  }

  lemma NextInRange(bits: nat, i: nat, count: nat, o: nat, n: nat)
    requires i < count && Position(bits, i) + n == 8 * o
    ensures Position(bits, i + 1) == Position(bits, i) + bits
    ensures n < bits ==> o < FastBits.Size(bits, count)
  {
    MulMono(bits, i + 1, count);
    Distribute(bits, i, 1, 1);
  }

  /** Loading a byte above the n bits left in the accumulator. */
  lemma LoadByte(b: seq<byte>, p: nat, n: nat, k: nat)
    requires n < 8 && p + n == 8 * k && k < |b|
    ensures var x := Field(LeValue(b), p, n) + Shl(b[k], n);
      x == Field(LeValue(b), p, n + 8) == Low16(Field(LeValue(b), p, n) + Low16(Shl(b[k], n)))
  {
    hide Pow2, LeValue, Field, Low16;
    ByteField(b, k);
    FieldSplit(LeValue(b), p, n, 8);
    Pow2Of8();
    AccumulatorFits(Field(LeValue(b), p, n), b[k], n, 8);
  }
}
