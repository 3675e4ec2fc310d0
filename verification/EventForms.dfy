/** All byte strings that decode to an event.  The decoder leaves some bits of the headers free, and sums
    a time of more than eight bytes modulo 2^64: what it accepts is exactly the spellings below. */
module EventForms {
  import opened Numbers
  import opened EventCodec
  import opened EventLaws

  /** The root field, the two padding bits, and the bytes of the time. */
  datatype Form = Form(flag: nat, padding: nat, time: seq<byte>)

  /** The forms in which an event may be spelled. */
  ghost predicate FormOf(e: Event, x: Form) {
    && x.flag < 4 && x.padding < 4 && 1 <= |x.time| <= 16
    && (x.flag != 0 <==> e.isRoot)
    && (|x.time| > 1 ==> x.time[|x.time| - 1] != 0)
    && LeValue(x.time) % U64 == e.time
  }

  /** The form of the encoder. */
  function Canonical(e: Event): Form {
    Form(Flag(e.isRoot), 0, Compact(e.time))
  }

  function Digits3(x: Form): seq<nat>
    requires 1 <= |x.time|
  {
    [0, |x.time| - 1]
  }

  function Digits2(e: Event, x: Form): seq<nat> {
    Sizes(Fields32(e)) + [x.flag, x.padding]
  }

  function Spell(e: Event, x: Form): seq<byte>
    requires 1 <= |x.time|
  {
    LeBytes(Packed(Digits3(x), 4), 1) + LeBytes(Packed(Digits2(e, x), 2), 2)
      + (x.time + (Compacts(Fields32(e)) + (Tails(e.parents) + (e.payload + e.sig))))
  }

  lemma DigitsFit(e: Event, x: Form)
    requires Typed(e) && FormOf(e, x)
    ensures Fit(Digits3(x), 4) && Fit(Digits2(e, x), 2) && |Digits2(e, x)| == 8
    ensures Packed(Digits3(x), 4) < Pow2(8) && Packed(Digits2(e, x), 2) < Pow2(16)
  {
    Bounds();
    hide Pow2, Packed, Compact;
    forall i | 0 <= i < 6
      ensures |Compact(Fields32(e)[i])| <= 4
    {
      CompactLength(Fields32(e)[i], 4);
    }
    PackedBound(Digits3(x), 4);
    PackedBound(Digits2(e, x), 2);
  }

  lemma SpelledHeaders(e: Event, x: Form)
    requires Typed(e) && FormOf(e, x)
    ensures var raw := Spell(e, x);
      && 3 <= |raw| && Pops3(raw) == Digits3(x) && Pops2(raw) == Sizes(Fields32(e)) + [x.flag]
      && raw[3..] == x.time + (Compacts(Fields32(e)) + (Tails(e.parents) + (e.payload + e.sig)))
  {
    DigitsFit(e, x);
    hide Pow2, Packed, LeValue, Field, LeBytes, Compacts, Tails, Digits2, Digits3, Sizes, Fields32;
    var raw := Spell(e, x);
    LeBytesValue(Packed(Digits3(x), 4), 1);
    LeBytesValue(Packed(Digits2(e, x), 2), 2);
    assert raw[..1] == LeBytes(Packed(Digits3(x), 4), 1) && raw[1..3] == LeBytes(Packed(Digits2(e, x), 2), 2);
    forall i | 0 <= i < 2
      ensures Pops3(raw)[i] == Digits3(x)[i]
    {
      DigitField(Digits3(x), 4, i);
    }
    forall i | 0 <= i < 7
      ensures Pops2(raw)[i] == Digits2(e, x)[i]
    {
      DigitField(Digits2(e, x), 2, i);
    }
    DigitsSplit(e, x);
  }

  lemma DigitsSplit(e: Event, x: Form)
    requires 1 <= |x.time|
    ensures |Digits3(x)| == 2 && |Digits2(e, x)| == 8 && Digits2(e, x)[..7] == Sizes(Fields32(e)) + [x.flag]
  {
    hide Compact;
  }

  /** The numbers of a spelling: the time in its own bytes, the others in compact form. */
  lemma ReadSpelled(e: Event, x: Form, c: seq<byte>)
    requires Typed(e) && FormOf(e, x)
    ensures ReadUints(x.time + (Compacts(Fields32(e)) + c), [|x.time| - 1] + Sizes(Fields32(e))) == Ok(([e.time] + Fields32(e), c))
  {
    hide LeValue, Compact, Compacts, Sizes;
    var b, sizes := x.time + (Compacts(Fields32(e)) + c), [|x.time| - 1] + Sizes(Fields32(e));
    assert b[..|x.time|] == x.time && b[|x.time|..] == Compacts(Fields32(e)) + c;
    assert sizes[1..] == Sizes(Fields32(e));
    ReadCompacts(Fields32(e), c);
  }

  /** Every spelling of an event is accepted, and decodes to it. */
  lemma SpellingDecodes(e: Event, x: Form)
    requires Encodable(e) && FormOf(e, x)
    ensures Decode(Spell(e, x)) == Ok(e)
  {
    hide LeValue, Compacts, Tails, Sizes, Spell, ReadUints, ReadParents, Pops2, Pops3;
    var c := e.payload + e.sig;
    SpelledHeaders(e, x);
    ReadSpelled(e, x, Tails(e.parents) + c);
    ReadTails(e.parents, e.epoch, c);
    assert Pops2(Spell(e, x))[..6] == Sizes(Fields32(e));
    assert c[..|c| - SIG_SIZE] == e.payload && c[|c| - SIG_SIZE..] == e.sig;
  }

  /** The encoding is one of the spellings. */
  lemma EncodingIsSpelling(e: Event)
    requires Encodable(e)
    ensures FormOf(e, Canonical(e)) && Spell(e, Canonical(e)) == Encode(e)
  {
    Bounds();
    hide Pow2, Packed, LeValue, LeBytes, Compact, Compacts, Tails, Sizes, Fields32;
    CompactValue(e.time);
    CompactLength(e.time, 8);
    SameDigits(e);
  }

  lemma SameDigits(e: Event)
    requires e.version == 0
    ensures Digits3(Canonical(e)) == Header3(e) && Packed(Digits2(e, Canonical(e)), 2) == Packed(Header2(e), 2)
  {
    hide Compact, Packed, Pow2;
    assert Digits2(e, Canonical(e)) == Header2(e) + [0];
    PackedSnoc(Header2(e), 2, 0);
  }

  // ---------- and there are no others ----------

  /** The form of an accepted byte string. */
  function FormIn(raw: seq<byte>): Form
    requires 3 <= |raw| && 3 + Pops3(raw)[1] + 1 <= |raw|
  {
    Form(Pops2(raw)[6], Field(LeValue(raw[1..3]), 14, 2), raw[3..3 + Pops3(raw)[1] + 1])
  }

  lemma HeadersSpelled(raw: seq<byte>)
    requires 3 <= |raw|
    ensures raw[..1] == LeBytes(Packed(Pops3(raw), 4), 1)
    ensures raw[1..3] == LeBytes(Packed(Pops2(raw) + [Field(LeValue(raw[1..3]), 14, 2)], 2), 2)
  {
    Bounds();
    hide Pow2, Packed, LeValue, Field, LeBytes;
    var n := LeValue(raw[1..3]);
    HeaderValues(raw);
    LeBytesInverse(raw[..1]);
    LeBytesInverse(raw[1..3]);
    LeBelow(raw[1..3]);
    DigitsPack(n, 2, 8);
    FieldAll(n, 16);
    assert Digits(n, 2, 8) == Pops2(raw) + [Field(n, 14, 2)];
  }

  /** What was read of an accepted byte string. */
  lemma BodySpelled(raw: seq<byte>)
    requires Decode(raw).Ok?
    ensures var e := Decode(raw).value;
      && Encodable(e) && 3 + Pops3(raw)[1] + 1 <= |raw| && FormOf(e, FormIn(raw))
      && Pops3(raw) == Digits3(FormIn(raw)) && Pops2(raw)[..6] == Sizes(Fields32(e))
      && raw[3..] == FormIn(raw).time + (Compacts(Fields32(e)) + (Tails(e.parents) + (e.payload + e.sig)))
  {
    Bounds();
    hide Pow2, Packed, LeValue, Compact, Compacts, Field, Sizes, ReadParents, Tails, Be32, Fields32, Digits;
    var e, n, sizes := Decode(raw).value, Pops3(raw)[1] + 1, Pops2(raw)[..6];
    PopsBound(raw);
    assert ([n - 1] + sizes)[1..] == sizes;
    var (time, rest) := ReadUint(raw[3..], n).value;
    ReadUintsInverse(rest, sizes);
    var (vs, rest') := ReadUints(rest, sizes).value;
    hide ReadUints;
    NarrowFields(vs, sizes);
    ReadParentsInverse(rest', vs[0], vs[5]);
    var (ps, rest'') := ReadParents(rest', vs[0], vs[5]).value;
    assert vs == Fields32(e) by { SixFields(vs, e); }
    assert raw[3..][..n] == raw[3..3 + n];
    assert rest'' == e.payload + e.sig;
  }

  lemma PopsBound(raw: seq<byte>)
    requires 3 <= |raw|
    ensures Pops3(raw)[0] < 16 && Pops3(raw)[1] < 16 && forall i :: 0 <= i < 7 ==> Pops2(raw)[i] < 4
  {
    Bounds();
    hide Pow2, LeValue;
  }

  lemma NarrowFields(vs: seq<nat>, sizes: seq<nat>)
    requires |vs| == |sizes| == 6 && forall i :: 0 <= i < 6 ==> sizes[i] < 4
    requires forall i :: 0 <= i < 6 ==> vs[i] < Pow2(8 * sizes[i] + 8)
    ensures forall i :: 0 <= i < 6 ==> vs[i] < U32 && vs[i] % U32 == vs[i]
  {
    Bounds();
    hide Pow2;
    forall i | 0 <= i < 6
      ensures vs[i] < U32
    {
      Pow2Grows(8 * sizes[i] + 8, 32);
    }
  }

  lemma SixFields(vs: seq<nat>, e: Event)
    requires |vs| == 6 && vs[0] == e.epoch && vs[1] == e.seqNum && vs[2] == e.frame
    requires vs[3] == e.creator && vs[4] == e.lamport && vs[5] == |e.parents|
    ensures vs == Fields32(e)
  {
  }

  lemma AcceptedIsSpelling(raw: seq<byte>)
    requires Decode(raw).Ok?
    ensures var e := Decode(raw).value;
      && Encodable(e) && 3 + Pops3(raw)[1] + 1 <= |raw| && FormOf(e, FormIn(raw)) && raw == Spell(e, FormIn(raw))
  {
    hide Pow2, Packed, LeValue, Compact, Compacts, Field, Sizes, Tails, Fields32, LeBytes, Decode, Pops2, Pops3;
    BodySpelled(raw);
    var e, x := Decode(raw).value, FormIn(raw);
    HeadersSpelled(raw);
    assert Digits2(e, x) == Pops2(raw) + [x.padding];
    assert raw == raw[..1] + raw[1..3] + raw[3..];
  }

  /** The decoder accepts exactly the spellings: a byte string decodes to an event if and only if it is one
      of the event's spellings. */
  lemma AcceptedIff(raw: seq<byte>, e: Event)
    ensures Decode(raw) == Ok(e) <==> Encodable(e) && exists x: Form :: FormOf(e, x) && raw == Spell(e, x)
  {
    hide Decode, Spell, Encodable, LeValue;
    if Decode(raw) == Ok(e) {
      AcceptedIsSpelling(raw);
    }
    if Encodable(e) && exists x: Form :: FormOf(e, x) && raw == Spell(e, x) {
      var x: Form :| FormOf(e, x) && raw == Spell(e, x);
      SpellingDecodes(e, x);
    }
  }

  /** A spelling shows its form, so different forms are different byte strings. */
  lemma FormsDiffer(e: Event, x: Form, y: Form)
    requires Encodable(e) && FormOf(e, x) && FormOf(e, y) && Spell(e, x) == Spell(e, y)
    ensures x == y
  {
    DigitsFit(e, x);
    DigitsFit(e, y);
    hide Pow2, Packed, LeValue, LeBytes, Compacts, Tails, Sizes, Fields32;
    var raw := Spell(e, x);
    SpelledHeaders(e, x);
    SpelledHeaders(e, y);
    assert Pops3(raw)[1] == |x.time| - 1 == |y.time| - 1;
    assert raw[3..][..|x.time|] == x.time && raw[3..][..|y.time|] == y.time;
    assert (Sizes(Fields32(e)) + [x.flag])[6] == x.flag && (Sizes(Fields32(e)) + [y.flag])[6] == y.flag;
    LeBytesValue(Packed(Digits2(e, x), 2), 2);
    LeBytesValue(Packed(Digits2(e, y), 2), 2);
    assert raw[1..3] == LeBytes(Packed(Digits2(e, x), 2), 2) && raw[1..3] == LeBytes(Packed(Digits2(e, y), 2), 2);
    PackedInjective(Digits2(e, x), Digits2(e, y), 2);
    assert Digits2(e, x)[7] == x.padding && Digits2(e, y)[7] == y.padding;
  }

  /** A spelling is the encoding exactly in the encoder's form; in every other form it is accepted too. */
  lemma NonCanonicalIff(e: Event, x: Form)
    requires Encodable(e) && FormOf(e, x)
    ensures Decode(Spell(e, x)) == Ok(e)
    ensures Spell(e, x) == Encode(e) <==> x == Canonical(e)
  {
    hide Encode, Spell, Decode, LeValue;
    EncodingIsSpelling(e);
    SpellingDecodes(e, x);
    if Spell(e, x) == Encode(e) {
      FormsDiffer(e, x, Canonical(e));
    }
  }

  /** Every event has such other forms: with a padding bit set, for a root with the root field 2, and with a
      ninth byte in the time. */
  lemma OtherForms(e: Event)
    requires Encodable(e)
    ensures var c := Canonical(e);
      && FormOf(e, c) && FormOf(e, c.(padding := 1)) && (e.isRoot ==> FormOf(e, c.(flag := 2)))
      && FormOf(e, c.(time := LeBytes(e.time, 8) + [1])) && |c.time| <= 8
  {
    Bounds();
    hide Pow2, LeBytes, Compact, Spell, Encode;
    EncodingIsSpelling(e);
    CompactLength(e.time, 8);
    NinthByte(e.time);
    hide LeValue;
  }

  lemma NinthByte(n: nat)
    requires n < U64
    ensures LeValue(LeBytes(n, 8) + [1]) % U64 == n
  {
    Bounds();
    hide Pow2, LeBytes;
    LeBytesValue(n, 8);
    PackedSnoc(LeBytes(n, 8), 8, 1);
  }

  /** The form is the encoder's exactly when the header is canonical. */
  lemma CanonicalFormIff(raw: seq<byte>)
    requires Decode(raw).Ok?
    ensures 3 + Pops3(raw)[1] + 1 <= |raw|
    ensures FormIn(raw) == Canonical(Decode(raw).value) <==> CanonicalHeader(raw)
  {
    hide Decode, Pow2, Packed, LeValue, Field, LeBytes, Compact, Compacts, Tails, Pops2, Pops3;
    AcceptedIsSpelling(raw);
    var e, x := Decode(raw).value, FormIn(raw);
    Bounds();
    CompactLength(e.time, 8);
    if |x.time| <= 8 {
      LeBelow(x.time);
      Pow2Grows(8 * |x.time|, 64);
      SmallMod(LeValue(x.time), U64);
      CompactUnique(x.time);
    }
  }

  /** Canonicity: an accepted byte string is the encoding of what it decodes to exactly when its
      header is canonical. */
  lemma CanonicalIff(raw: seq<byte>)
    requires Decode(raw).Ok?
    ensures Encode(Decode(raw).value) == raw <==> CanonicalHeader(raw)
  {
    hide Encode, Decode, Spell, FormOf, FormIn, CanonicalHeader;
    AcceptedIsSpelling(raw);
    CanonicalFormIff(raw);
    NonCanonicalIff(Decode(raw).value, FormIn(raw));
  }
}
